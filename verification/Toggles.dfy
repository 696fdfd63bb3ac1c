/** Runtime toggles of dry_run by socket clients (src/ipc.rs) and their survival of a restart
    (src/main.rs). A client sets the shared flag under its lock, releases it, and only then loads,
    changes and saves the persisted state. */
module Toggles {
  import opened Wrappers
  import opened StateFile

  /** Where one client is between two of its steps. */
  datatype Client =
    | Idle
    | Flagged(value: bool)
    | Read(state: PersistedState)
    | Writing(state: PersistedState, at: nat)

  /** files is what a restart would find. */
  datatype State = State(runtime: bool, files: Files, clients: map<nat, Client>)

  datatype Event =
    | SetFlag(id: nat, value: bool)
    | ReadState(id: nat)
    | OpenTmp(id: nat)
    | WriteChar(id: nat)
    | Rename(id: nat)
    | GiveUp(id: nat)

  /** What is fixed: the encoding, the state file, and the configured value. */
  datatype Setup = Setup(codec: Codec, path: Path, configured: bool)

  function ClientOf(s: State, id: nat): Client {
    if id in s.clients then s.clients[id] else Idle
  }

  function Become(s: State, id: nat, c: Client): State {
    s.(clients := s.clients[id := c])
  }

  /** The flag a daemon starting on these files begins with. */
  function Effective(u: Setup, fs: Files): bool {
    match Load(u.codec, fs, u.path).dryRunOverride
    case Some(v) => v
    case None => u.configured
  }

  /** The persisted override if one can be read there, and else what is configured. */
  lemma EffectiveIs(u: Setup, fs: Files)
    ensures forall v :: u.path in fs && u.codec.dec(fs[u.path]) == Some(PersistedState(Some(v))) ==>
              Effective(u, fs) == v
    ensures (forall v :: !(u.path in fs && u.codec.dec(fs[u.path]) == Some(PersistedState(Some(v))))) ==>
              Effective(u, fs) == u.configured
  {
    var st := Load(u.codec, fs, u.path);
    assert st == PersistedState(st.dryRunOverride);
  }

  function Start(u: Setup, fs: Files): State {
    State(Effective(u, fs), fs, map[])
  }

  function Contents(fs: Files, p: Path): string {
    if p in fs then fs[p] else ""
  }

  /** A character written at an offset; one beyond the end lands at the end. */
  function PutAt(body: string, at: nat, c: char): string {
    if at < |body| then body[at := c] else body + [c]
  }

  function Step(u: Setup, s: State, e: Event): Option<State> {
    var me := ClientOf(s, e.id);
    var tmp := TmpOf(u.path);
    match e
    case SetFlag(id, v) =>
      if me.Idle? then Some(Become(s.(runtime := v), id, Flagged(v))) else None
    case ReadState(id) =>
      if me.Flagged? then
        Some(Become(s, id, Read(Load(u.codec, s.files, u.path).(dryRunOverride := Some(me.value)))))
      else None
    case OpenTmp(id) =>
      if me.Read? then Some(Become(s.(files := s.files[tmp := ""]), id, Writing(me.state, 0))) else None
    case WriteChar(id) =>
      if me.Writing? && me.at < |u.codec.enc(me.state)| then
        Some(Become(s.(files := s.files[tmp := PutAt(Contents(s.files, tmp), me.at, u.codec.enc(me.state)[me.at])]),
                    id, Writing(me.state, me.at + 1)))
      else None
    case Rename(id) =>
      if me.Writing? && me.at == |u.codec.enc(me.state)| then
        Some(Become(if tmp in s.files then s.(files := Renamed(s.files, tmp, u.path)) else s, id, Idle))
      else None
    case GiveUp(id) =>
      if me.Idle? then None else Some(Become(s, id, Idle))
  }

  function Run(u: Setup, fs: Files, es: seq<Event>): Option<State> {
    if es == [] then Some(Start(u, fs))
    else
      var before := Run(u, fs, es[..|es| - 1]);
      if before.None? then None else Step(u, before.value, es[|es| - 1])
  }

  // ----- Toggles one at a time -----

  predicate AllIdle(s: State) {
    forall id :: id in s.clients ==> s.clients[id].Idle?
  }

  /** Every toggle begins when all earlier ones are over. */
  predicate Serial(u: Setup, fs: Files, es: seq<Event>) {
    es == [] ||
    (var before := es[..|es| - 1];
     && Serial(u, fs, before)
     && (es[|es| - 1].SetFlag? ==> Run(u, fs, before).Some? && AllIdle(Run(u, fs, before).value)))
  }

  predicate NoneGivesUp(es: seq<Event>) {
    forall i :: 0 <= i < |es| ==> !es[i].GiveUp?
  }

  ghost predicate AtMostOne(s: State) {
    forall id, id' :: id in s.clients && id' in s.clients && !s.clients[id].Idle? && !s.clients[id'].Idle? ==>
      id == id'
  }

  /** What a client in the middle of its toggle has done so far. */
  predicate Midway(u: Setup, s: State, c: Client) {
    match c
    case Idle => true
    case Flagged(v) => v == s.runtime
    case Read(st) => st == PersistedState(Some(s.runtime))
    case Writing(st, at) =>
      && st == PersistedState(Some(s.runtime)) && at <= |u.codec.enc(st)|
      && TmpOf(u.path) in s.files && s.files[TmpOf(u.path)] == u.codec.enc(st)[..at]
  }

  ghost predicate Orderly(u: Setup, s: State) {
    AtMostOne(s) && forall id :: id in s.clients ==> Midway(u, s, s.clients[id])
  }

  predicate Settled(u: Setup, s: State) {
    AllIdle(s) ==> s.runtime == Effective(u, s.files)
  }

  lemma StepOrderly(u: Setup, s: State, e: Event)
    requires Orderly(u, s) && Step(u, s, e).Some? && (e.SetFlag? ==> AllIdle(s))
    ensures Orderly(u, Step(u, s, e).value)
  {
  }

  lemma RenameLoads(u: Setup, s: State, id: nat)
    requires Valid(u.codec) && Orderly(u, s) && Step(u, s, Rename(id)).Some?
    ensures Load(u.codec, Step(u, s, Rename(id)).value.files, u.path) == PersistedState(Some(s.runtime))
  {
    var st := PersistedState(Some(s.runtime));
    assert id in s.clients && Midway(u, s, s.clients[id]);
    var body := u.codec.enc(st);
    assert body[..|body|] == body;
    assert u.codec.dec(body) == Some(st);
    assert Step(u, s, Rename(id)).value.files[u.path] == body;
  }

  lemma StepSettles(u: Setup, s: State, e: Event)
    requires Valid(u.codec) && !e.GiveUp?
    requires Orderly(u, s) && Settled(u, s) && Step(u, s, e).Some?
    ensures Settled(u, Step(u, s, e).value)
  {
    var s' := Step(u, s, e).value;
    if e.Rename? {
      RenameLoads(u, s, e.id);
    } else {
      assert e.id in s'.clients && !s'.clients[e.id].Idle?;
    }
  }

  lemma {:induction false} RunOrderly(u: Setup, fs: Files, es: seq<Event>)
    requires Serial(u, fs, es) && Run(u, fs, es).Some?
    ensures Orderly(u, Run(u, fs, es).value)
  {
    if es != [] {
      var before := es[..|es| - 1];
      RunOrderly(u, fs, before);
      StepOrderly(u, Run(u, fs, before).value, es[|es| - 1]);
    }
  }

  /** With toggles one at a time and successful saves, whenever no toggle is under way the running
      flag is the one a restart begins with, whatever was on disk at the start. */
  lemma {:induction false} RestartRecovers(u: Setup, fs: Files, es: seq<Event>)
    requires Valid(u.codec) && Serial(u, fs, es) && NoneGivesUp(es) && Run(u, fs, es).Some?
    ensures Settled(u, Run(u, fs, es).value)
    ensures AllIdle(Run(u, fs, es).value) ==>
              Start(u, Run(u, fs, es).value.files).runtime == Run(u, fs, es).value.runtime
  {
    if es != [] {
      var before := es[..|es| - 1];
      RestartRecovers(u, fs, before);
      RunOrderly(u, fs, before);
      StepSettles(u, Run(u, fs, before).value, es[|es| - 1]);
    }
  }

  // ----- Overlapping toggles -----

  lemma RunOneMore(u: Setup, fs: Files, es: seq<Event>, e: Event)
    requires Run(u, fs, es).Some?
    ensures Run(u, fs, es + [e]) == Step(u, Run(u, fs, es).value, e)
  {
    assert (es + [e])[..|es|] == es;
  }

  lemma TypeOut(u: Setup, fs: Files, es: seq<Event>, id: nat, st: PersistedState, at: nat) returns (es': seq<Event>)
    requires Run(u, fs, es).Some? && ClientOf(Run(u, fs, es).value, id) == Writing(st, at)
    requires at <= |u.codec.enc(st)| && Contents(Run(u, fs, es).value.files, TmpOf(u.path)) == u.codec.enc(st)[..at]
    requires TmpOf(u.path) in Run(u, fs, es).value.files
    ensures NoneGivesUp(es) ==> NoneGivesUp(es')
    ensures var s, s' := Run(u, fs, es), Run(u, fs, es');
      && s'.Some?
      && s'.value.runtime == s.value.runtime
      && s'.value.clients == s.value.clients[id := Writing(st, |u.codec.enc(st)|)]
      && TmpOf(u.path) in s'.value.files && s'.value.files[TmpOf(u.path)] == u.codec.enc(st)
    decreases |u.codec.enc(st)| - at
  {
    var body := u.codec.enc(st);
    if at == |body| {
      assert body[..at] == body;
      es' := es;
      assert Run(u, fs, es).value.clients[id := Writing(st, at)] == Run(u, fs, es).value.clients;
    } else {
      RunOneMore(u, fs, es, WriteChar(id));
      assert body[..at + 1] == body[..at] + [body[at]];
      es' := TypeOut(u, fs, es + [WriteChar(id)], id, st, at + 1);
    }
  }

  /** Lets one client that has set the flag finish its save with no other client moving. */
  lemma FinishAlone(u: Setup, fs: Files, es: seq<Event>, id: nat, v: bool) returns (es': seq<Event>)
    requires Valid(u.codec) && Run(u, fs, es).Some? && ClientOf(Run(u, fs, es).value, id) == Flagged(v)
    requires NoneGivesUp(es)
    ensures NoneGivesUp(es')
    ensures var s, s' := Run(u, fs, es), Run(u, fs, es');
      && s'.Some?
      && s'.value.runtime == s.value.runtime
      && s'.value.clients == s.value.clients[id := Idle]
      && Load(u.codec, s'.value.files, u.path) == PersistedState(Some(v))
  {
    var st := PersistedState(Some(v));
    var s := Run(u, fs, es).value;
    RunOneMore(u, fs, es, ReadState(id));
    RunOneMore(u, fs, es + [ReadState(id)], OpenTmp(id));
    var open := es + [ReadState(id)] + [OpenTmp(id)];
    assert u.codec.enc(st)[..0] == "";
    var typed := TypeOut(u, fs, open, id, st, 0);
    RunOneMore(u, fs, typed, Rename(id));
    es' := typed + [Rename(id)];
    assert u.codec.dec(u.codec.enc(st)) == Some(st);
    assert s.clients[id := Read(st)][id := Writing(st, 0)][id := Writing(st, |u.codec.enc(st)|)][id := Idle]
        == s.clients[id := Idle];
  }

  lemma SetBoth(u: Setup, fs: Files) returns (es: seq<Event>)
    ensures NoneGivesUp(es) && Run(u, fs, es).Some?
    ensures Run(u, fs, es).value.runtime == false
    ensures Run(u, fs, es).value.clients == map[0 := Flagged(true), 1 := Flagged(false)]
  {
    var e0, e1 := SetFlag(0, true), SetFlag(1, false);
    RunOneMore(u, fs, [], e0);
    RunOneMore(u, fs, [] + [e0], e1);
    es := [] + [e0] + [e1];
  }

  /** Without the hypothesis the promise fails: of two overlapping toggles, every save succeeding,
      the one that set the flag first may be the one saved last. */
  lemma OverlapLosesTheToggle(u: Setup, fs: Files)
    requires Valid(u.codec)
    ensures exists es :: NoneGivesUp(es) && Run(u, fs, es).Some? && AllIdle(Run(u, fs, es).value)
              && Run(u, fs, es).value.runtime == false
              && Effective(u, Run(u, fs, es).value.files) == true
  {
    var both := SetBoth(u, fs);
    var one := FinishAlone(u, fs, both, 1, false);
    var two := FinishAlone(u, fs, one, 0, true);
    assert AllIdle(Run(u, fs, two).value);
  }

  // ----- Exactly when overlapping toggles survive -----

  /** The flag a client's toggle is about, while it lasts. */
  function ValueIn(c: Client): Option<bool> {
    match c
    case Idle => None
    case Flagged(v) => Some(v)
    case Read(st) => st.dryRunOverride
    case Writing(st, _) => st.dryRunOverride
  }

  predicate NoneWriting(s: State) {
    forall id :: id in s.clients ==> !s.clients[id].Writing?
  }

  /** Flags may be set and states loaded at any time, but the temporary file is opened only while no other
      client is writing it. */
  predicate WritesApart(u: Setup, fs: Files, es: seq<Event>) {
    es == [] ||
    (var before := es[..|es| - 1];
     && WritesApart(u, fs, before)
     && (es[|es| - 1].OpenTmp? ==> Run(u, fs, before).Some? && NoneWriting(Run(u, fs, before).value)))
  }

  /** The value the toggles set last. */
  function LastSet(es: seq<Event>): Option<bool> {
    if es == [] then None
    else if es[|es| - 1].SetFlag? then Some(es[|es| - 1].value)
    else LastSet(es[..|es| - 1])
  }

  /** The value one client set last. */
  function LastSetBy(es: seq<Event>, id: nat): Option<bool> {
    if es == [] then None
    else if es[|es| - 1].SetFlag? && es[|es| - 1].id == id then Some(es[|es| - 1].value)
    else LastSetBy(es[..|es| - 1], id)
  }

  /** The value of the toggle whose save ended last. */
  function LastSaved(es: seq<Event>): Option<bool> {
    if es == [] then None
    else
      var before := es[..|es| - 1];
      if es[|es| - 1].Rename? then LastSetBy(before, es[|es| - 1].id) else LastSaved(before)
  }

  predicate Typed(u: Setup, s: State, c: Client) {
    c.Writing? ==>
      && c.at <= |u.codec.enc(c.state)|
      && TmpOf(u.path) in s.files && s.files[TmpOf(u.path)] == u.codec.enc(c.state)[..c.at]
  }

  ghost predicate Apart(u: Setup, s: State) {
    && (forall id, id' :: id in s.clients && id' in s.clients && s.clients[id].Writing? && s.clients[id'].Writing? ==>
          id == id')
    && (forall id :: id in s.clients ==> Typed(u, s, s.clients[id]))
  }

  /** Every client under way carries the value it set last. */
  predicate Carried(es: seq<Event>, s: State) {
    forall id :: id in s.clients && !s.clients[id].Idle? ==>
      ValueIn(s.clients[id]).Some? && ValueIn(s.clients[id]) == LastSetBy(es, id)
  }

  predicate SomeBusy(s: State) {
    exists id :: id in s.clients && !s.clients[id].Idle?
  }

  lemma StepApart(u: Setup, s: State, e: Event)
    requires Apart(u, s) && Step(u, s, e).Some? && (e.OpenTmp? ==> NoneWriting(s))
    ensures Apart(u, Step(u, s, e).value)
  {
  }

  lemma StepCarried(u: Setup, s: State, es: seq<Event>)
    requires es != [] && Carried(es[..|es| - 1], s) && Step(u, s, es[|es| - 1]).Some?
    ensures Carried(es, Step(u, s, es[|es| - 1]).value)
  {
  }

  /** Only a rename changes what is loaded, and it loads what its client set. */
  lemma StepSaves(u: Setup, s: State, e: Event)
    requires Valid(u.codec) && u.path.extension != Some("tmp")
    requires Apart(u, s) && Step(u, s, e).Some?
    ensures Load(u.codec, Step(u, s, e).value.files, u.path) ==
            if e.Rename? then PersistedState(ValueIn(ClientOf(s, e.id))) else Load(u.codec, s.files, u.path)
  {
    if e.Rename? {
      var st := s.clients[e.id].state;
      var body := u.codec.enc(st);
      assert Typed(u, s, s.clients[e.id]);
      assert body[..|body|] == body;
      assert u.codec.dec(body) == Some(st);
      assert st == PersistedState(st.dryRunOverride);
    }
  }

  lemma {:induction false} ApartInvariant(u: Setup, fs: Files, es: seq<Event>)
    requires WritesApart(u, fs, es) && Run(u, fs, es).Some?
    ensures Apart(u, Run(u, fs, es).value)
  {
    if es != [] {
      var before := es[..|es| - 1];
      ApartInvariant(u, fs, before);
      StepApart(u, Run(u, fs, before).value, es[|es| - 1]);
    }
  }

  lemma {:induction false} CarriedInvariant(u: Setup, fs: Files, es: seq<Event>)
    requires Run(u, fs, es).Some?
    ensures Carried(es, Run(u, fs, es).value)
  {
    if es != [] {
      var before := es[..|es| - 1];
      CarriedInvariant(u, fs, before);
      StepCarried(u, Run(u, fs, before).value, es);
    }
  }

  predicate WasSet(es: seq<Event>, v: bool) {
    exists i :: 0 <= i < |es| && es[i].SetFlag? && es[i].value == v
  }

  lemma {:induction false} SetByWasSet(es: seq<Event>, id: nat)
    ensures LastSetBy(es, id).Some? ==> WasSet(es, LastSetBy(es, id).value)
  {
    if es != [] {
      SetByWasSet(es[..|es| - 1], id);
      WasSetGrows(es);
    }
  }

  lemma WasSetGrows(es: seq<Event>)
    requires es != []
    ensures forall v :: WasSet(es[..|es| - 1], v) ==> WasSet(es, v)
  {
    forall v | WasSet(es[..|es| - 1], v)
      ensures WasSet(es, v)
    {
      var i :| 0 <= i < |es| - 1 && es[..|es| - 1][i].SetFlag? && es[..|es| - 1][i].value == v;
      assert es[i].SetFlag? && es[i].value == v;
    }
  }

  /** While no two clients write at once, whenever flags are set and states loaded and whether saves fail
      or not, a crash at any moment leaves the state first found on disk or a value some client set; an
      override is never lost to the default. */
  lemma {:induction false} CrashAnyTime(u: Setup, fs: Files, es: seq<Event>)
    requires Valid(u.codec) && u.path.extension != Some("tmp")
    requires WritesApart(u, fs, es) && Run(u, fs, es).Some?
    ensures var found := Load(u.codec, Run(u, fs, es).value.files, u.path);
      found == Load(u.codec, fs, u.path) || (found.dryRunOverride.Some? && WasSet(es, found.dryRunOverride.value))
  {
    if es != [] {
      var before, e := es[..|es| - 1], es[|es| - 1];
      var s := Run(u, fs, before).value;
      CrashAnyTime(u, fs, before);
      ApartInvariant(u, fs, before);
      CarriedInvariant(u, fs, before);
      StepSaves(u, s, e);
      WasSetGrows(es);
      if e.Rename? {
        assert ValueIn(ClientOf(s, e.id)) == LastSetBy(before, e.id);
        SetByWasSet(before, e.id);
      }
    }
  }

  lemma StepRuntime(u: Setup, s: State, e: Event)
    requires Step(u, s, e).Some? && !e.GiveUp?
    ensures Step(u, s, e).value.runtime == if e.SetFlag? then e.value else s.runtime
    ensures e.SetFlag? ==> SomeBusy(Step(u, s, e).value)
    ensures SomeBusy(s) && !e.Rename? ==> SomeBusy(Step(u, s, e).value)
  {
    var s' := Step(u, s, e).value;
    if !e.Rename? {
      assert e.id in s'.clients && !s'.clients[e.id].Idle?;
    }
  }

  /** What runs is what was set last; what is stored is what was saved last. */
  lemma {:induction false} OrdersDecide(u: Setup, fs: Files, es: seq<Event>)
    requires Valid(u.codec) && u.path.extension != Some("tmp")
    requires WritesApart(u, fs, es) && NoneGivesUp(es) && Run(u, fs, es).Some?
    ensures var s := Run(u, fs, es).value;
      && s.runtime == (if LastSet(es).Some? then LastSet(es).value else Effective(u, fs))
      && Load(u.codec, s.files, u.path) ==
           (if LastSaved(es).Some? then PersistedState(LastSaved(es)) else Load(u.codec, fs, u.path))
      && (LastSet(es).Some? ==> LastSaved(es).Some? || SomeBusy(s))
      && (LastSaved(es).Some? ==> LastSet(es).Some?)
  {
    if es != [] {
      var before, e := es[..|es| - 1], es[|es| - 1];
      var s := Run(u, fs, before).value;
      OrdersDecide(u, fs, before);
      ApartInvariant(u, fs, before);
      CarriedInvariant(u, fs, before);
      StepSaves(u, s, e);
      StepRuntime(u, s, e);
      if e.Rename? {
        SetByIsSet(before, e.id);
      }
    }
  }

  lemma {:induction false} SetByIsSet(es: seq<Event>, id: nat)
    ensures LastSetBy(es, id).Some? ==> LastSet(es).Some?
  {
    if es != [] {
      SetByIsSet(es[..|es| - 1], id);
    }
  }

  /** With successful saves that never write at once, whenever flags are set and states loaded, a restart
      recovers the running flag if and only if the value set last is the one saved last. */
  lemma RestartRecoversIff(u: Setup, fs: Files, es: seq<Event>)
    requires Valid(u.codec) && u.path.extension != Some("tmp")
    requires WritesApart(u, fs, es) && NoneGivesUp(es) && Run(u, fs, es).Some? && AllIdle(Run(u, fs, es).value)
    ensures Effective(u, Run(u, fs, es).value.files) == Run(u, fs, es).value.runtime <==> LastSaved(es) == LastSet(es)
  {
    OrdersDecide(u, fs, es);
  }

  /** A client that sets its flag, loads and opens the temporary file, nothing else happening. */
  lemma OpenAlone(u: Setup, fs: Files, es: seq<Event>, id: nat, v: bool) returns (es': seq<Event>)
    requires NoneGivesUp(es) && Run(u, fs, es).Some? && ClientOf(Run(u, fs, es).value, id).Idle?
    ensures NoneGivesUp(es') && Run(u, fs, es').Some?
    ensures var s, s' := Run(u, fs, es).value, Run(u, fs, es').value;
      && s'.clients == s.clients[id := Writing(PersistedState(Some(v)), 0)]
      && s'.files == s.files[TmpOf(u.path) := ""]
  {
    var s := Run(u, fs, es).value;
    var st := PersistedState(Some(v));
    var flagged := es + [SetFlag(id, v)];
    var read := flagged + [ReadState(id)];
    RunOneMore(u, fs, es, SetFlag(id, v));
    RunOneMore(u, fs, flagged, ReadState(id));
    RunOneMore(u, fs, read, OpenTmp(id));
    es' := read + [OpenTmp(id)];
    assert s.clients[id := Flagged(v)][id := Read(st)][id := Writing(st, 0)] == s.clients[id := Writing(st, 0)];
  }

  /** Writes that overlap can lose whatever override there was: one client renames the temporary file that
      another has just emptied, and a restart at that moment finds the default. */
  lemma OverlapLosesTheOverride(u: Setup, fs: Files)
    requires Valid(u.codec) && u.path.extension != Some("tmp")
    ensures exists es :: NoneGivesUp(es) && Run(u, fs, es).Some?
              && Load(u.codec, Run(u, fs, es).value.files, u.path) == DEFAULT
              && Effective(u, Run(u, fs, es).value.files) == u.configured
  {
    var st := PersistedState(Some(true));
    var first := OpenAlone(u, fs, [], 0, true);
    assert u.codec.enc(st)[..0] == "";
    var typed := TypeOut(u, fs, first, 0, st, 0);
    var second := OpenAlone(u, fs, typed, 1, false);
    RunOneMore(u, fs, second, Rename(0));
    var es := second + [Rename(0)];
    assert NoneGivesUp(es) && Run(u, fs, es).value.files[u.path] == "";
  }
}
