/** The persisted override of dry_run (src/state.rs) and the replacement of a file by writing a
    temporary one beside it and renaming it (src/state.rs, and the vacuum command in src/main.rs). */
module StateFile {
  import opened Wrappers

  /** A path split at the last dot of its file name. */
  datatype Path = Path(stem: string, extension: Option<string>)

  type Files = map<Path, string>

  datatype PersistedState = PersistedState(dryRunOverride: Option<bool>)

  const DEFAULT := PersistedState(None)

  /** How a state becomes text and back. */
  datatype Codec = Codec(enc: PersistedState -> string, dec: string -> Option<PersistedState>)

  /** A JSON text is never empty (section 2 of RFC 8259). */
  ghost predicate Valid(c: Codec) {
    (forall s :: c.dec(c.enc(s)) == Some(s)) && c.dec("") == None
  }

  function TmpOf(p: Path): Path {
    p.(extension := Some("tmp"))
  }

  function Get(fs: Files, p: Path): Option<string> {
    if p in fs then Some(fs[p]) else None
  }

  function Load(c: Codec, fs: Files, p: Path): PersistedState {
    if p !in fs then DEFAULT
    else
      match c.dec(fs[p])
      case Some(s) => s
      case None => DEFAULT
  }

  /** How far a replacement gets before it fails or the process is stopped: whether the temporary file
      was opened, how many characters reached it, and whether the rename was made. */
  datatype Reach = Reach(created: bool, written: nat, renamed: bool)

  predicate Complete(r: Reach, body: string) {
    r.created && r.written >= |body| && r.renamed
  }

  function Renamed(fs: Files, from: Path, to: Path): Files
    requires from in fs
  {
    if from == to then fs else (fs - {from})[to := fs[from]]
  }

  function Replaced(fs: Files, p: Path, body: string, r: Reach): Files {
    if !r.created then fs
    else if r.written < |body| then fs[TmpOf(p) := body[..r.written]]
    else if !r.renamed then fs[TmpOf(p) := body]
    else Renamed(fs[TmpOf(p) := body], TmpOf(p), p)
  }

  class FileSystem {
    var files: Files

    constructor (fs: Files)
      ensures files == fs
    {
      files := fs;
    }

    /** Opening truncates the file; characters then arrive one after another until none are left or
        the device gives up. */
    method Write(p: Path, body: string, r: Reach) returns (ok: bool)
      modifies this
      ensures ok <==> r.created && r.written >= |body|
      ensures files == if !r.created then old(files)
                       else old(files)[p := if r.written < |body| then body[..r.written] else body]
    {
      if !r.created {
        return false;
      }
      files := files[p := ""];
      var k := 0;
      while k < |body| && k < r.written
        invariant 0 <= k <= |body| && k <= r.written
        invariant files == old(files)[p := body[..k]]
      {
        assert body[..k + 1] == body[..k] + [body[k]];
        files := files[p := files[p] + [body[k]]];
        k := k + 1;
      }
      assert body[..|body|] == body;
      return k == |body|;
    }

    method Save(c: Codec, p: Path, s: PersistedState, r: Reach) returns (done: Result<(), string>)
      modifies this
      ensures files == Replaced(old(files), p, c.enc(s), r)
      ensures done.Ok? <==> Complete(r, c.enc(s))
    {
      var body := c.enc(s);
      var tmp := TmpOf(p);
      var written := Write(tmp, body, r);
      if !written {
        return Err("write");
      }
      if !r.renamed {
        return Err("rename");
      }
      files := Renamed(files, tmp, p);
      return Ok(());
    }

    /** What a client's toggle does to the persisted state; failures are only logged. */
    method PersistDryRun(c: Codec, p: Path, value: Option<bool>, r: Reach)
      modifies this
      ensures files == Replaced(old(files), p, c.enc(PersistedState(value)), r)
    {
      var s := Load(c, files, p);
      s := s.(dryRunOverride := value);
      var _ := Save(c, p, s, r);
    }
  }

  // ----- What a replacement promises -----

  /** Wherever it stops, a reader finds the old or the new contents, and no other file but the
      temporary one changes; complete, it leaves the new contents and no temporary file. */
  lemma ReplacementAtomic(fs: Files, p: Path, body: string, r: Reach)
    requires p.extension != Some("tmp")
    ensures var fs' := Replaced(fs, p, body, r);
      && Get(fs', p) == (if Complete(r, body) then Some(body) else Get(fs, p))
      && (forall q :: q != p && q != TmpOf(p) ==> Get(fs', q) == Get(fs, q))
      && Get(fs', TmpOf(p)) == (if !r.created then Get(fs, TmpOf(p))
                                else if Complete(r, body) then None
                                else Some(if r.written < |body| then body[..r.written] else body))
  {
  }

  predicate OldOrNew(c: Codec, fs: Files, p: Path, s: PersistedState, r: Reach) {
    var now := Load(c, Replaced(fs, p, c.enc(s), r), p);
    now == Load(c, fs, p) || now == s
  }

  /** Saving is crash-safe, leaving at every point the old or the new state, exactly for the paths
      whose extension is not the temporary one's. */
  lemma CrashSafeIff(c: Codec, p: Path)
    requires Valid(c)
    ensures (forall fs, s, r :: OldOrNew(c, fs, p, s, r)) <==> p.extension != Some("tmp")
  {
    if p.extension == Some("tmp") {
      var was, later := PersistedState(Some(true)), PersistedState(Some(false));
      var fs: Files := map[p := c.enc(was)];
      var r := Reach(true, 0, false);
      EncodedNotEmpty(c, later);
      assert c.dec(c.enc(was)) == Some(was);
      assert Replaced(fs, p, c.enc(later), r)[p] == "";
      assert !OldOrNew(c, fs, p, later, r);
    } else {
      forall fs, s, r
        ensures OldOrNew(c, fs, p, s, r)
      {
        ReplacementAtomic(fs, p, c.enc(s), r);
        assert c.dec(c.enc(s)) == Some(s);
      }
    }
  }

  lemma EncodedNotEmpty(c: Codec, s: PersistedState)
    requires Valid(c)
    ensures c.enc(s) != ""
  {
    assert c.dec(c.enc(s)) == Some(s);
  }

  /** A completed save is read back, whatever the extension. */
  lemma SaveThenLoad(c: Codec, fs: Files, p: Path, s: PersistedState, r: Reach)
    requires Valid(c) && Complete(r, c.enc(s))
    ensures Load(c, Replaced(fs, p, c.enc(s), r), p) == s
  {
    assert c.dec(c.enc(s)) == Some(s);
  }

  /** What a toggling client is told. */
  datatype Answer = Answer(ok: bool, dryRun: bool, persisted: bool)

  /** The answer is the same however the save went. */
  function AnswerTo(value: bool): Answer {
    Answer(true, value, true)
  }

  /** What a restart would find is what the answer says is persisted. */
  predicate Truthful(a: Answer, c: Codec, fs: Files, p: Path) {
    a.persisted ==> Load(c, fs, p) == PersistedState(Some(a.dryRun))
  }

  /** The answer is true if and only if the save completed or the value was stored already; where the
      temporary file is the state file itself, if and only if what reached it reads as the value. */
  lemma AnswerIsTrueIff(c: Codec, fs: Files, p: Path, value: bool, r: Reach)
    requires Valid(c)
    ensures var st := PersistedState(Some(value)); var body := c.enc(st);
      Truthful(AnswerTo(value), c, Replaced(fs, p, body, r), p) <==>
        if p.extension != Some("tmp") then Complete(r, body) || Load(c, fs, p) == st
        else if !r.created then Load(c, fs, p) == st
        else r.written >= |body| || c.dec(body[..r.written]) == Some(st)
  {
    var st := PersistedState(Some(value));
    var body := c.enc(st);
    assert c.dec(body) == Some(st);
    if p.extension != Some("tmp") {
      ReplacementAtomic(fs, p, body, r);
    }
  }

  /** A save that stops before the rename leaves a client told that its value persists, and a restart that
      finds the opposite. */
  lemma AnswerMayBeFalse(c: Codec, p: Path, value: bool, r: Reach)
    requires Valid(c) && p.extension != Some("tmp") && !r.renamed
    ensures exists fs :: !Truthful(AnswerTo(value), c, Replaced(fs, p, c.enc(PersistedState(Some(value))), r), p)
  {
    var was := PersistedState(Some(!value));
    var fs: Files := map[p := c.enc(was)];
    assert c.dec(c.enc(was)) == Some(was);
    AnswerIsTrueIff(c, fs, p, value, r);
  }
}
