/** The tick history, one encoded record per line (src/history.rs), and its truncation by the vacuum
    command (src/main.rs). */
module History {
  import opened Wrappers
  import opened Text
  import opened Lists
  import opened Outcomes
  import StateFile

  /** How a record becomes a line and back. */
  datatype Codec = Codec(enc: TickRecord -> string, dec: string -> Option<TickRecord>)

  /** What section 7 and section 2 of RFC 8259 grant a compact JSON encoding: no control character
      inside a text, and blank space around a value that a reader skips. */
  ghost predicate Valid(c: Codec) {
    && (forall r :: c.dec(c.enc(r)) == Some(r))
    && (forall r :: PlainLine(c.enc(r)))
    && (forall l :: c.dec(ChopCr(l)) == c.dec(l))
    && c.dec("") == None
  }

  /** A history file that is missing, is not valid text, or holds text. */
  datatype File = Missing | Garbled | Text(body: string)

  function BodyOf(f: File): string {
    if f.Text? then f.body else ""
  }

  function Decoded(c: Codec): string -> seq<TickRecord> {
    l => match c.dec(l) case Some(r) => [r] case None => []
  }

  /** Every record the file holds, oldest first. */
  function Records(c: Codec, f: File): seq<TickRecord> {
    FlatMap(Lines(BodyOf(f)), Decoded(c))
  }

  function Reversed<T>(s: seq<T>): (r: seq<T>)
    ensures |r| == |s| && forall k :: 0 <= k < |s| ==> r[k] == s[|s| - 1 - k]
  {
    if s == [] then [] else [s[|s| - 1]] + Reversed(s[..|s| - 1])
  }

  function Take<T>(s: seq<T>, n: nat): seq<T> {
    if n < |s| then s[..n] else s
  }

  function Newest<T>(s: seq<T>, n: nat): seq<T> {
    Take(Reversed(s), n)
  }

  // ----- Appending -----

  /** The file once the first took characters of a line have reached it; opening creates it. */
  function AfterWrite(f: File, line: string, took: nat): File {
    var part := if took < |line| then line[..took] else line;
    match f
    case Missing => Text(part)
    case Garbled => Garbled
    case Text(body) => Text(body + part)
  }

  function AfterAppend(c: Codec, f: File, r: TickRecord): File {
    var line := c.enc(r) + "\n";
    AfterWrite(f, line, |line|)
  }

  function AfterAppends(c: Codec, f: File, rs: seq<TickRecord>): File
    decreases |rs|
  {
    if rs == [] then f else AfterAppends(c, AfterAppend(c, f, rs[0]), rs[1..])
  }

  lemma LineDecodes(c: Codec, r: TickRecord)
    requires Valid(c)
    ensures Lines(c.enc(r) + "\n") == [c.enc(r)]
    ensures FlatMap([c.enc(r)], Decoded(c)) == [r]
  {
    LinesCons(c.enc(r), "");
    assert c.enc(r) + "\n" + "" == c.enc(r) + "\n";
    assert [c.enc(r)][1..] == [];
    assert FlatMap([c.enc(r)], Decoded(c)) == Decoded(c)(c.enc(r)) + [];
  }

  lemma AppendedRecord(c: Codec, f: File, r: TickRecord)
    requires Valid(c) && !f.Garbled? && Terminated(BodyOf(f))
    ensures Records(c, AfterAppend(c, f, r)) == Records(c, f) + [r]
    ensures AfterAppend(c, f, r).Text? && Terminated(AfterAppend(c, f, r).body)
  {
    var line := c.enc(r) + "\n";
    LineDecodes(c, r);
    LinesAppend(BodyOf(f), line);
    FlatMapAppend(Lines(BodyOf(f)), [c.enc(r)], Decoded(c));
    assert BodyOf(AfterAppend(c, f, r)) == BodyOf(f) + line;
  }

  /** After any run of appends to a file whose last line is complete, the records are the earlier
      ones followed by the appended ones. */
  lemma {:induction false} AppendsRecovered(c: Codec, f: File, rs: seq<TickRecord>)
    requires Valid(c) && !f.Garbled? && Terminated(BodyOf(f))
    ensures Records(c, AfterAppends(c, f, rs)) == Records(c, f) + rs
    decreases |rs|
  {
    if rs != [] {
      var first, rest, next := rs[0], rs[1..], AfterAppend(c, f, rs[0]);
      AppendedRecord(c, f, first);
      AppendsRecovered(c, next, rest);
      assert rs == [first] + rest;
      assert Records(c, f) + rs == Records(c, f) + [first] + rest;
    }
  }

  /** A write cut short leaves a piece of a line; it costs at most the next record, which is glued
      to it, and every later record is read back. */
  lemma TornLine(c: Codec, whole: string, torn: string, r: TickRecord, rs: seq<TickRecord>)
    requires Valid(c) && Terminated(whole) && '\n' !in torn
    ensures Records(c, AfterAppends(c, Text(whole + torn), [r] + rs))
         == Records(c, Text(whole)) + Decoded(c)(torn + c.enc(r)) + rs
  {
    var glued := torn + c.enc(r);
    var f := Text(whole + (glued + "\n"));
    var line := c.enc(r) + "\n";
    assert whole + torn + line == whole + (glued + "\n");
    assert ([r] + rs)[1..] == rs;
    GluedLine(c, whole, glued);
    AppendsRecovered(c, f, rs);
  }

  lemma GluedLine(c: Codec, whole: string, glued: string)
    requires Valid(c) && Terminated(whole) && '\n' !in glued
    ensures Records(c, Text(whole + (glued + "\n"))) == Records(c, Text(whole)) + Decoded(c)(glued)
  {
    var l := ChopCr(glued);
    LinesAppend(whole, glued + "\n");
    LinesCons(glued, "");
    assert glued + "\n" + "" == glued + "\n";
    FlatMapAppend(Lines(whole), [l], Decoded(c));
    OneLine(l, Decoded(c));
    assert c.dec(l) == c.dec(glued);
    assert Lines(whole + (glued + "\n")) == Lines(whole) + [l];
  }

  lemma OneLine(l: string, f: string -> seq<TickRecord>)
    ensures FlatMap([l], f) == f(l)
  {
    assert [l][1..] == [];
    assert FlatMap([l], f) == f(l) + FlatMap([l][1..], f);
  }

  // ----- Appends that may fail -----

  /** An attempt to append a row and how much of its line reached the file, if it could be opened. */
  datatype Write = Write(row: TickRecord, took: Option<nat>)

  /** All of the line arrived, its newline included. */
  predicate Landed(c: Codec, w: Write) {
    w.took.Some? && w.took.value > |c.enc(w.row)|
  }

  function AfterOne(c: Codec, f: File, w: Write): File {
    if w.took.Some? then AfterWrite(f, c.enc(w.row) + "\n", w.took.value) else f
  }

  function AfterAll(c: Codec, f: File, ws: seq<Write>): File {
    if ws == [] then f else AfterOne(c, AfterAll(c, f, ws[..|ws| - 1]), ws[|ws| - 1])
  }

  function LandedRows(c: Codec, ws: seq<Write>): seq<TickRecord> {
    if ws == [] then []
    else
      var w := ws[|ws| - 1];
      LandedRows(c, ws[..|ws| - 1]) + (if Landed(c, w) then [w.row] else [])
  }

  /** What a failed append leaves of its line. */
  function Piece(c: Codec, w: Write): string {
    if w.took.None? then ""
    else if w.took.value < |c.enc(w.row)| then c.enc(w.row)[..w.took.value]
    else c.enc(w.row)
  }

  /** The text after the last newline: what was torn in the file found, or the pieces failed appends left,
      since a row last landed. */
  function Torn(c: Codec, f: File, ws: seq<Write>): string {
    if ws == [] then LastLine(BodyOf(f))
    else
      var w := ws[|ws| - 1];
      if Landed(c, w) then "" else Torn(c, f, ws[..|ws| - 1]) + Piece(c, w)
  }

  /** The records on the complete lines, where a landed row is glued to what was torn before it. */
  function OnLines(c: Codec, f: File, ws: seq<Write>): seq<TickRecord> {
    if ws == [] then Records(c, Text(WholeLines(BodyOf(f))))
    else
      var w, before := ws[|ws| - 1], ws[..|ws| - 1];
      OnLines(c, f, before) + (if Landed(c, w) then Decoded(c)(Torn(c, f, before) + c.enc(w.row)) else [])
  }

  /** The body in two: complete lines, holding the records of OnLines, and what is torn. */
  predicate Parts(c: Codec, f: File, ws: seq<Write>, whole: string) {
    && Terminated(whole) && BodyOf(AfterAll(c, f, ws)) == whole + Torn(c, f, ws)
    && Records(c, Text(whole)) == OnLines(c, f, ws)
    && !AfterAll(c, f, ws).Garbled? && '\n' !in Torn(c, f, ws)
  }

  lemma EncodedIsPlain(c: Codec, r: TickRecord)
    requires Valid(c)
    ensures '\n' !in c.enc(r)
  {
    assert PlainLine(c.enc(r));
  }

  lemma WriteLanded(c: Codec, f: File, w: Write)
    requires Landed(c, w) && !f.Garbled?
    ensures AfterOne(c, f, w) == Text(BodyOf(f) + (c.enc(w.row) + "\n"))
  {
    var line := c.enc(w.row) + "\n";
    assert "" + line == line;
  }

  lemma WriteFailed(c: Codec, f: File, w: Write)
    requires !Landed(c, w) && !f.Garbled?
    ensures BodyOf(AfterOne(c, f, w)) == BodyOf(f) + Piece(c, w) && !AfterOne(c, f, w).Garbled?
  {
    var enc := c.enc(w.row);
    if w.took.Some? {
      assert (enc + "\n")[..w.took.value] == enc[..w.took.value];
      if w.took.value == |enc| {
        assert enc[..|enc|] == enc;
      }
      assert "" + Piece(c, w) == Piece(c, w);
    } else {
      assert BodyOf(f) + "" == BodyOf(f);
    }
  }

  lemma GlueBody(whole: string, torn: string, enc: string)
    ensures whole + torn + (enc + "\n") == whole + (torn + enc + "\n")
    ensures Terminated(whole + (torn + enc + "\n"))
    ensures '\n' !in torn && '\n' !in enc ==> '\n' !in torn + enc
  {
  }

  lemma PartsLanded(c: Codec, f: File, ws: seq<Write>, whole: string)
    requires Valid(c) && ws != [] && Landed(c, ws[|ws| - 1]) && Parts(c, f, ws[..|ws| - 1], whole)
    ensures Parts(c, f, ws, whole + (Torn(c, f, ws[..|ws| - 1]) + c.enc(ws[|ws| - 1].row) + "\n"))
  {
    var before, w := ws[..|ws| - 1], ws[|ws| - 1];
    var torn, enc := Torn(c, f, before), c.enc(w.row);
    EncodedIsPlain(c, w.row);
    WriteLanded(c, AfterAll(c, f, before), w);
    GlueBody(whole, torn, enc);
    GluedLine(c, whole, torn + enc);
    var whole' := whole + (torn + enc + "\n");
    assert whole' + "" == whole';
    assert Torn(c, f, ws) == "" && AfterAll(c, f, ws) == Text(whole');
  }

  lemma StepsFailed(c: Codec, f: File, ws: seq<Write>)
    requires ws != [] && !Landed(c, ws[|ws| - 1])
    ensures var before, w := ws[..|ws| - 1], ws[|ws| - 1];
      && OnLines(c, f, ws) == OnLines(c, f, before) && LandedRows(c, ws) == LandedRows(c, before)
      && Torn(c, f, ws) == Torn(c, f, before) + Piece(c, w)
  {
  }

  lemma PieceIsPlain(c: Codec, w: Write)
    requires Valid(c)
    ensures '\n' !in Piece(c, w)
  {
    EncodedIsPlain(c, w.row);
  }

  lemma PartsFailed(c: Codec, f: File, ws: seq<Write>, whole: string)
    requires Valid(c) && ws != [] && !Landed(c, ws[|ws| - 1]) && Parts(c, f, ws[..|ws| - 1], whole)
    ensures Parts(c, f, ws, whole)
  {
    var before, w := ws[..|ws| - 1], ws[|ws| - 1];
    WriteFailed(c, AfterAll(c, f, before), w);
    StepsFailed(c, f, ws);
    PieceIsPlain(c, w);
    Regroup(whole, Torn(c, f, before), Piece(c, w));
  }

  lemma {:induction false} BodyParts(c: Codec, f: File, ws: seq<Write>) returns (whole: string)
    requires Valid(c) && !f.Garbled?
    ensures Parts(c, f, ws, whole)
  {
    if ws == [] {
      whole := WholeLines(BodyOf(f));
      LastLineSplits(BodyOf(f));
    } else {
      var before, w := ws[..|ws| - 1], ws[|ws| - 1];
      whole := BodyParts(c, f, before);
      if Landed(c, w) {
        PartsLanded(c, f, ws, whole);
        whole := whole + (Torn(c, f, before) + c.enc(w.row) + "\n");
      } else {
        PartsFailed(c, f, ws, whole);
      }
    }
  }

  lemma TornTail(c: Codec, whole: string, torn: string)
    requires Valid(c) && Terminated(whole) && '\n' !in torn
    ensures FlatMap(Lines(whole + torn), Decoded(c)) == Records(c, Text(whole)) + Decoded(c)(torn)
  {
    LinesAppend(whole, torn);
    FlatMapAppend(Lines(whole), Lines(torn), Decoded(c));
    LineGrows(torn, "");
    assert "" + torn == torn;
    if torn == "" {
      assert Decoded(c)(torn) == [];
    } else {
      OneLine(torn, Decoded(c));
    }
  }

  /** What the file lists: the records on its complete lines, and the torn end if it happens to decode. */
  lemma ListingIs(c: Codec, f: File, ws: seq<Write>)
    requires Valid(c) && !f.Garbled?
    ensures Records(c, AfterAll(c, f, ws)) == OnLines(c, f, ws) + Decoded(c)(Torn(c, f, ws))
  {
    var whole := BodyParts(c, f, ws);
    TornTail(c, whole, Torn(c, f, ws));
  }

  lemma {:induction false} GarbledStays(c: Codec, f: File, ws: seq<Write>)
    requires f.Garbled?
    ensures AfterAll(c, f, ws) == f && Records(c, f) == []
  {
    assert Lines("") == [];
    if ws != [] {
      GarbledStays(c, f, ws[..|ws| - 1]);
    }
  }

  /** The listing is the records found and exactly the rows reported as written. */
  predicate ListsAll(c: Codec, f: File, ws: seq<Write>) {
    Records(c, AfterAll(c, f, ws)) == Records(c, f) + LandedRows(c, ws)
  }

  /** The k-th append does no harm: landed, nothing torn before it reads as a record, and it is itself
      readable behind that; failed, what is torn reads as it did before. In a file that is no text any row
      is lost. */
  predicate Harmless(c: Codec, f: File, ws: seq<Write>, k: nat)
    requires k < |ws|
  {
    var torn := Torn(c, f, ws[..k]);
    if f.Garbled? then !Landed(c, ws[k])
    else if Landed(c, ws[k]) then c.dec(torn) == None && c.dec(torn + c.enc(ws[k].row)) == Some(ws[k].row)
    else c.dec(torn + Piece(c, ws[k])) == c.dec(torn)
  }

  predicate AllHarmless(c: Codec, f: File, ws: seq<Write>) {
    forall k :: 0 <= k < |ws| ==> Harmless(c, f, ws, k)
  }

  lemma HarmlessPrefix(c: Codec, f: File, ws: seq<Write>)
    requires ws != []
    ensures AllHarmless(c, f, ws) <==> AllHarmless(c, f, ws[..|ws| - 1]) && Harmless(c, f, ws, |ws| - 1)
  {
    var before := ws[..|ws| - 1];
    forall k | 0 <= k < |before|
      ensures Harmless(c, f, before, k) <==> Harmless(c, f, ws, k)
    {
      assert before[..k] == ws[..k];
    }
  }

  lemma SameTail<T>(a: seq<T>, b: seq<T>, x: seq<T>, y: seq<T>)
    requires a == b
    ensures a + x == b + y <==> x == y
  {
    assert (a + x)[|a|..] == x && (b + y)[|b|..] == y;
  }

  lemma OneMoreIff<T>(lines: seq<T>, was: seq<T>, glued: seq<T>, rows: seq<T>, x: T)
    requires lines + was == rows && |glued| <= 1
    ensures lines + glued == rows + [x] <==> was == [] && glued == [x]
  {
    assert rows + [x] == lines + (was + [x]);
    SameTail(lines, lines, glued, was + [x]);
    if glued == was + [x] {
      assert |was| == 0;
    }
  }

  lemma DecodedOne(c: Codec, l: string)
    ensures |Decoded(c)(l)| <= 1
    ensures Decoded(c)(l) == [] <==> c.dec(l) == None
    ensures forall r :: Decoded(c)(l) == [r] <==> c.dec(l) == Some(r)
  {
  }

  lemma DecodedSame(c: Codec, l: string, l': string)
    ensures Decoded(c)(l) == Decoded(c)(l') <==> c.dec(l) == c.dec(l')
  {
    DecodedOne(c, l);
    DecodedOne(c, l');
  }

  lemma StepsLanded(c: Codec, f: File, ws: seq<Write>)
    requires Valid(c) && ws != [] && Landed(c, ws[|ws| - 1])
    ensures var before, w := ws[..|ws| - 1], ws[|ws| - 1];
      && OnLines(c, f, ws) + Decoded(c)(Torn(c, f, ws))
           == OnLines(c, f, before) + Decoded(c)(Torn(c, f, before) + c.enc(w.row))
      && LandedRows(c, ws) == LandedRows(c, before) + [w.row]
  {
    DecodedOne(c, Torn(c, f, ws));
  }

  lemma GarbledStep(c: Codec, f: File, ws: seq<Write>)
    requires f.Garbled? && ws != [] && ListsAll(c, f, ws[..|ws| - 1])
    ensures ListsAll(c, f, ws) <==> !Landed(c, ws[|ws| - 1])
  {
    GarbledStays(c, f, ws);
    GarbledStays(c, f, ws[..|ws| - 1]);
  }

  /** If the listing was right before the last append, it is right after it exactly when that did no harm. */
  lemma ListsStep(c: Codec, f: File, ws: seq<Write>)
    requires Valid(c) && ws != [] && ListsAll(c, f, ws[..|ws| - 1])
    ensures ListsAll(c, f, ws) <==> Harmless(c, f, ws, |ws| - 1)
  {
    var n := |ws| - 1;
    if f.Garbled? {
      GarbledStep(c, f, ws);
    } else {
      ListingIs(c, f, ws[..n]);
      ListingIs(c, f, ws);
      ListsStepText(c, f, ws, Records(c, f), Records(c, AfterAll(c, f, ws)));
    }
  }

  lemma ListsStepText(c: Codec, f: File, ws: seq<Write>, found: seq<TickRecord>, listed: seq<TickRecord>)
    requires Valid(c) && ws != [] && !f.Garbled?
    requires OnLines(c, f, ws[..|ws| - 1]) + Decoded(c)(Torn(c, f, ws[..|ws| - 1]))
          == found + LandedRows(c, ws[..|ws| - 1])
    requires listed == OnLines(c, f, ws) + Decoded(c)(Torn(c, f, ws))
    ensures listed == found + LandedRows(c, ws) <==> Harmless(c, f, ws, |ws| - 1)
  {
    var before, w := ws[..|ws| - 1], ws[|ws| - 1];
    var lines, torn, rows := OnLines(c, f, before), Torn(c, f, before), LandedRows(c, before);
    if Landed(c, w) {
      StepsLanded(c, f, ws);
      DecodedOne(c, torn);
      DecodedOne(c, torn + c.enc(w.row));
      OneMoreIff(lines, Decoded(c)(torn), Decoded(c)(torn + c.enc(w.row)), found + rows, w.row);
      Regroup(found, rows, [w.row]);
    } else {
      StepsFailed(c, f, ws);
      SameTail(lines, lines, Decoded(c)(torn + Piece(c, w)), Decoded(c)(torn));
      DecodedSame(c, torn + Piece(c, w), torn);
    }
  }

  lemma NothingWritten(c: Codec, f: File)
    ensures ListsAll(c, f, [])
  {
    assert Records(c, f) + [] == Records(c, f);
  }

  /** The listing is right from the start on and after every append. */
  predicate ListedThroughout(c: Codec, f: File, ws: seq<Write>) {
    ListsAll(c, f, ws) && (ws != [] ==> ListedThroughout(c, f, ws[..|ws| - 1]))
  }

  /** It is, whatever file was found, if and only if no append does harm. */
  lemma {:induction false} ListedThroughoutIff(c: Codec, f: File, ws: seq<Write>)
    requires Valid(c)
    ensures ListedThroughout(c, f, ws) <==> AllHarmless(c, f, ws)
  {
    if ws == [] {
      NothingWritten(c, f);
    } else {
      ListedThroughoutIff(c, f, ws[..|ws| - 1]);
      HarmlessPrefix(c, f, ws);
      if ListedThroughout(c, f, ws[..|ws| - 1]) {
        ListsStep(c, f, ws);
      }
    }
  }

  /** Failed appends that leave nothing do no harm to a file with a complete last line. */
  lemma {:induction false} NothingTorn(c: Codec, f: File, ws: seq<Write>)
    requires Valid(c) && !f.Garbled? && Terminated(BodyOf(f))
    requires forall k :: 0 <= k < |ws| ==> Landed(c, ws[k]) || Piece(c, ws[k]) == ""
    ensures AllHarmless(c, f, ws) && Torn(c, f, ws) == ""
  {
    if ws == [] {
      LastLineSplits(BodyOf(f));
    } else {
      var n := |ws| - 1;
      NothingTorn(c, f, ws[..n]);
      HarmlessPrefix(c, f, ws);
      var enc := c.enc(ws[n].row);
      var empty: string := "";
      assert empty + enc == enc && c.dec(enc) == Some(ws[n].row);
      assert empty + empty == empty;
      assert Harmless(c, f, ws, n);
    }
  }

  /** A file found torn: the first row that lands is glued to what its predecessor left, and if the two
      cannot be read, the row reported as written is not listed. */
  lemma FirstRowIsLost(c: Codec, f: File, w: Write)
    requires Valid(c) && !f.Garbled? && Landed(c, w)
    requires c.dec(LastLine(BodyOf(f))) == None && c.dec(LastLine(BodyOf(f)) + c.enc(w.row)) == None
    ensures LandedRows(c, [w]) == [w.row] && Records(c, AfterAll(c, f, [w])) == Records(c, f)
    ensures !ListsAll(c, f, [w]) && !AllHarmless(c, f, [w])
  {
    var ws := [w];
    assert ws[..0] == [] && ws[..|ws| - 1] == [];
    assert LandedRows(c, ws) == [] + [w.row];
    ListingIs(c, f, []);
    ListingIs(c, f, ws);
    assert Records(c, f) == OnLines(c, f, []) + [];
    assert Records(c, AfterAll(c, f, ws)) == OnLines(c, f, []) + [] + [];
    assert |Records(c, f) + [w.row]| != |Records(c, f)|;
    assert !Harmless(c, f, ws, 0);
  }

  /** The torn case within one run: a failed append leaves a piece, the next one succeeds, and if what is
      torn and it cannot be read glued together, the row reported as written is not listed. */
  lemma WrittenRowIsLost(c: Codec, f: File, first: Write, second: Write)
    requires Valid(c) && !f.Garbled? && Terminated(BodyOf(f))
    requires !Landed(c, first) && Landed(c, second) && c.dec(Piece(c, first) + c.enc(second.row)) == None
    ensures var ws := [first, second];
      && LandedRows(c, ws) == [second.row] && Records(c, AfterAll(c, f, ws)) == Records(c, f)
      && !ListsAll(c, f, ws) && !AllHarmless(c, f, ws)
  {
    var ws := [first, second];
    var one := ws[..1];
    LastLineSplits(BodyOf(f));
    assert one == [first] && one[..0] == [] && ws[0] == first && ws[1] == second;
    var piece := Piece(c, first);
    assert Torn(c, f, one) == "" + piece == piece;
    assert ws[..|ws| - 1] == one && one[..|one| - 1] == [];
    assert LandedRows(c, one) == [] + [];
    assert LandedRows(c, ws) == LandedRows(c, one) + [second.row];
    ListingIs(c, f, []);
    ListingIs(c, f, ws);
    assert OnLines(c, f, one) == OnLines(c, f, []) + [] && Decoded(c)("") == [];
    assert OnLines(c, f, ws) == OnLines(c, f, one) + [];
    assert |Records(c, f) + [second.row]| != |Records(c, f)|;
    assert !Harmless(c, f, ws, 1);
  }

  // ----- Reading the newest records -----

  lemma ReversedAppend<T>(earlier: seq<T>, later: seq<T>)
    ensures Reversed(earlier + later) == Reversed(later) + Reversed(earlier)
  {
  }

  lemma TakeAppend<T>(a: seq<T>, b: seq<T>, n: nat)
    ensures Take(a + b, n) == if n <= |a| then Take(a, n) else a + Take(b, n - |a|)
  {
  }

  lemma NewestOfAppend<T>(earlier: seq<T>, later: seq<T>, n: nat)
    ensures Newest(earlier + later, n) ==
            if n <= |later| then Newest(later, n) else Reversed(later) + Newest(earlier, n - |later|)
  {
    ReversedAppend(earlier, later);
    TakeAppend(Reversed(later), Reversed(earlier), n);
  }

  lemma NewestReversed<T>(s: seq<T>, n: nat)
    requires n <= |s|
    ensures Newest(s, n) == Reversed(s[|s| - n..])
  {
  }

  /** Where no append did harm, the newest rows that landed are listed first. */
  lemma HarmlessTail(c: Codec, f: File, ws: seq<Write>, file: File, rows: seq<TickRecord>, n: nat)
    requires Valid(c) && AllHarmless(c, f, ws)
    requires file == AfterAll(c, f, ws) && rows == LandedRows(c, ws) && n <= |rows|
    ensures Newest(Records(c, file), n) == Reversed(rows[|rows| - n..])
  {
    ListedThroughoutIff(c, f, ws);
    NewestOfAppend(Records(c, f), rows, n);
    NewestReversed(rows, n);
  }

  /** The records once a first row is appended: it is glued to what the file ends with. */
  function WithFirst(c: Codec, f: File, r: TickRecord): seq<TickRecord> {
    Records(c, Text(WholeLines(BodyOf(f)))) + Decoded(c)(LastLine(BodyOf(f)) + c.enc(r))
  }

  /** Which, where the file ends with a complete line, is that row itself. */
  lemma WithFirstWhole(c: Codec, f: File, r: TickRecord)
    requires Valid(c) && !f.Garbled? && Terminated(BodyOf(f))
    ensures WithFirst(c, f, r) == Records(c, f) + [r]
  {
    LastLineSplits(BodyOf(f));
    assert "" + c.enc(r) == c.enc(r);
    assert WholeLines(BodyOf(f)) == BodyOf(f);
  }

  lemma AppendsToAny(c: Codec, f: File, rs: seq<TickRecord>)
    requires Valid(c) && !f.Garbled? && rs != []
    ensures Records(c, AfterAppends(c, f, rs)) == WithFirst(c, f, rs[0]) + rs[1..]
  {
    var body, line := BodyOf(f), c.enc(rs[0]) + "\n";
    LastLineSplits(body);
    assert "" + line == line;
    assert AfterAppend(c, f, rs[0]) == AfterAppend(c, Text(body), rs[0]);
    assert rs == [rs[0]] + rs[1..];
    TornLine(c, WholeLines(body), LastLine(body), rs[0], rs[1..]);
  }

  lemma NewestBeyond<T>(earlier: seq<T>, later: seq<T>, n: nat)
    ensures n <= |later| ==> Newest(earlier + later, n) == Reversed(later[|later| - n..])
    ensures n > |later| ==> Newest(earlier + later, n) == Reversed(later) + Newest(earlier, n - |later|)
  {
    NewestOfAppend(earlier, later, n);
    if n <= |later| {
      NewestReversed(later, n);
    }
  }

  /** The newest n records after a run of appends are the last n appended, reversed, as far as these follow
      the first; then come the newest of the earlier records and the first row, glued to what was torn. */
  lemma TailOfAppends(c: Codec, f: File, rs: seq<TickRecord>, n: nat)
    requires Valid(c) && !f.Garbled? && rs != []
    ensures var now := Newest(Records(c, AfterAppends(c, f, rs)), n); var rest := rs[1..];
      && (n <= |rest| ==> now == Reversed(rest[|rest| - n..]))
      && (n > |rest| ==> now == Reversed(rest) + Newest(WithFirst(c, f, rs[0]), n - |rest|))
  {
    AppendsToAny(c, f, rs);
    NewestBeyond(WithFirst(c, f, rs[0]), rs[1..], n);
  }

  // ----- Vacuum -----

  function LastOf<T>(s: seq<T>, n: nat): seq<T> {
    if n < |s| then s[|s| - n..] else s
  }

  function Vacuumed(f: File, keep: nat): string {
    Join(LastOf(Lines(BodyOf(f)), keep), "\n") + "\n"
  }

  function AfterVacuum(f: File, keep: nat): File {
    if |Lines(BodyOf(f))| > keep then Text(Vacuumed(f, keep)) else f
  }

  /** The file at a path once its replacement has got as far as it gets. */
  function Replaced(p: StateFile.Path, f: File, out: string, r: StateFile.Reach): File {
    if !r.created then f
    else if StateFile.TmpOf(p) == p then Text(if r.written < |out| then out[..r.written] else out)
    else if StateFile.Complete(r, out) then Text(out)
    else f
  }

  /** It is what the replacement of a file among others leaves at the path. */
  lemma ReplacedIsReplacement(fs: StateFile.Files, p: StateFile.Path, body: string, out: string, r: StateFile.Reach)
    requires StateFile.Get(fs, p) == Some(body)
    ensures Replaced(p, Text(body), out, r).Text?
    ensures StateFile.Get(StateFile.Replaced(fs, p, out, r), p) == Some(Replaced(p, Text(body), out, r).body)
  {
  }

  predicate NewlineFree(ls: seq<string>) {
    forall i :: 0 <= i < |ls| ==> '\n' !in ls[i]
  }

  function Chopped(ls: seq<string>): (r: seq<string>)
    ensures |r| == |ls| && forall i :: 0 <= i < |ls| ==> r[i] == ChopCr(ls[i])
  {
    if ls == [] then [] else [ChopCr(ls[0])] + Chopped(ls[1..])
  }

  lemma {:induction false} LinesOfChoppedUnlines(ls: seq<string>)
    requires NewlineFree(ls)
    ensures Lines(Unlines(ls)) == Chopped(ls)
  {
    if ls != [] {
      LinesCons(ls[0], Unlines(ls[1..]));
      LinesOfChoppedUnlines(ls[1..]);
    }
  }

  lemma {:induction false} ChoppedDecodes(c: Codec, ls: seq<string>)
    requires Valid(c)
    ensures FlatMap(Chopped(ls), Decoded(c)) == FlatMap(ls, Decoded(c))
  {
    if ls != [] {
      ChoppedDecodes(c, ls[1..]);
      assert Chopped(ls)[1..] == Chopped(ls[1..]);
      assert c.dec(ChopCr(ls[0])) == c.dec(ls[0]);
    }
  }

  /** What is left holds exactly the kept lines, except that keeping none leaves one empty line. */
  lemma VacuumedLines(f: File, keep: nat)
    requires |Lines(BodyOf(f))| > keep
    ensures AfterVacuum(f, keep).Text?
    ensures Lines(AfterVacuum(f, keep).body) ==
            if keep == 0 then [""] else Chopped(LastOf(Lines(BodyOf(f)), keep))
  {
    var ls := Lines(BodyOf(f));
    if keep == 0 {
      LinesCons("", "");
      assert "" + "\n" + "" == "\n";
      assert AfterVacuum(f, 0).body == "\n";
    } else {
      LinesLackNewlines(BodyOf(f), "");
      JoinTerminated(LastOf(ls, keep));
      LinesOfChoppedUnlines(LastOf(ls, keep));
    }
  }

  /** The vacuum keeps exactly the records on the kept lines. */
  lemma VacuumedRecords(c: Codec, f: File, keep: nat)
    requires Valid(c)
    ensures Records(c, AfterVacuum(f, keep)) == FlatMap(LastOf(Lines(BodyOf(f)), keep), Decoded(c))
  {
    var ls := Lines(BodyOf(f));
    if |ls| > keep {
      VacuumedLines(f, keep);
      if keep == 0 {
        assert [""][1..] == [];
        assert FlatMap([""], Decoded(c)) == Decoded(c)("") + [];
      } else {
        ChoppedDecodes(c, LastOf(ls, keep));
      }
    }
  }

  /** A listing after a vacuum is a prefix of the listing before it, and the same listing exactly
      when the kept lines hold all the records it showed. */
  lemma VacuumKeepsTail(c: Codec, f: File, keep: nat, n: nat)
    requires Valid(c)
    ensures var before := Newest(Records(c, f), n); var after := Newest(Records(c, AfterVacuum(f, keep)), n);
      && after <= before
      && (after == before <==>
            |FlatMap(LastOf(Lines(BodyOf(f)), keep), Decoded(c))| >= n
            || FlatMap(Lines(BodyOf(f))[..|Lines(BodyOf(f))| - |LastOf(Lines(BodyOf(f)), keep)|], Decoded(c)) == [])
  {
    var ls := Lines(BodyOf(f));
    var kept := LastOf(ls, keep);
    var dropped := ls[..|ls| - |kept|];
    assert ls == dropped + kept;
    FlatMapAppend(dropped, kept, Decoded(c));
    VacuumedRecords(c, f, keep);
    NewestOfAppend(FlatMap(dropped, Decoded(c)), FlatMap(kept, Decoded(c)), n);
  }

  /** A second vacuum with the same limit changes nothing, whatever the lines hold and even when
      none are kept. */
  lemma VacuumTwice(f: File, keep: nat)
    ensures AfterVacuum(AfterVacuum(f, keep), keep) == AfterVacuum(f, keep)
  {
    if |Lines(BodyOf(f))| > keep {
      VacuumedLines(f, keep);
      if keep == 0 {
        assert AfterVacuum(f, 0).body == "\n";
      }
    }
  }

  /** Records appended after a vacuum are read back: the vacuum leaves a complete last line. */
  lemma VacuumThenAppend(c: Codec, f: File, keep: nat, rs: seq<TickRecord>)
    requires Valid(c) && !f.Garbled? && |Lines(BodyOf(f))| > keep
    ensures Records(c, AfterAppends(c, AfterVacuum(f, keep), rs)) == Records(c, AfterVacuum(f, keep)) + rs
  {
    var f' := AfterVacuum(f, keep);
    AppendsRecovered(c, f', rs);
  }

  // ----- The file on disk -----

  class HistoryFile {
    const path: StateFile.Path
    var file: File

    constructor (p: StateFile.Path, f: File)
      ensures path == p && file == f
    {
      path, file := p, f;
    }

    /** Appends one line; the open may fail, and the write may stop after some of the line. */
    method Append(c: Codec, r: TickRecord, took: Option<nat>) returns (ok: bool)
      modifies this
      ensures file == AfterOne(c, old(file), Write(r, took)) && ok == Landed(c, Write(r, took))
      ensures ok ==> file == AfterAppend(c, old(file), r)
    {
      var line := c.enc(r);
      line := line + "\n";
      if took.None? {
        return false;
      }
      var part := if took.value < |line| then line[..took.value] else line;
      match file {
        case Missing => file := Text(part);
        case Garbled =>
        case Text(body) => file := Text(body + part);
      }
      return took.value >= |line|;
    }

    method Tail(c: Codec, n: nat) returns (recs: seq<TickRecord>)
      ensures recs == Newest(Records(c, file), n)
    {
      if !file.Text? {
        assert Lines("") == [];
        return [];
      }
      var ls := Lines(file.body);
      recs := [];
      for i := 0 to |ls|
        invariant recs == FlatMap(ls[..i], Decoded(c))
      {
        FlatMapStep(ls, i, Decoded(c));
        var parsed := c.dec(ls[i]);
        if parsed.Some? {
          recs := recs + [parsed.value];
        }
      }
      assert ls[..|ls|] == ls;
      recs := Reversed(recs);
      if n < |recs| {
        recs := recs[..n];
      }
    }

    /** Truncates to the last lines and tells how many there were and are kept, or fails on the way. */
    method Vacuum(keep: nat, dryRun: bool, r: StateFile.Reach) returns (done: Result<(nat, nat), string>)
      modifies this
      ensures var before := |Lines(BodyOf(old(file)))|;
        && (done.Ok? <==> dryRun || before <= keep || StateFile.Complete(r, Vacuumed(old(file), keep)))
        && (done.Ok? ==> done.value == (before, if before > keep then keep else before))
        && file == if dryRun || before <= keep then old(file)
                   else Replaced(path, old(file), Vacuumed(old(file), keep), r)
      ensures done.Ok? && !dryRun ==> file == AfterVacuum(old(file), keep)
    {
      if file.Missing? {
        assert Lines("") == [];
        return Ok((0, 0));
      }
      var ls := Lines(BodyOf(file));
      if |ls| <= keep {
        return Ok((|ls|, |ls|));
      }
      if !dryRun {
        var out := Join(ls[|ls| - keep..], "\n");
        out := out + "\n";
        file := Replaced(path, file, out, r);
        if !StateFile.Complete(r, out) {
          return Err("write or rename");
        }
      }
      return Ok((|ls|, keep));
    }
  }
}
