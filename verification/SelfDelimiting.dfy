/** History files whose encoding tells where it ends, as JSON objects do: torn pieces never read as a
    record, alone or glued. Which appends do harm then depends on how much of each arrived and nothing else. */
module SelfDelimiting {
  import opened Wrappers
  import opened Text
  import opened Lists
  import opened Outcomes
  import opened History

  function Glue(ps: seq<string>): string {
    if ps == [] then "" else Glue(ps[..|ps| - 1]) + ps[|ps| - 1]
  }

  /** Some of an encoding, from its start. */
  ghost predicate IsPiece(c: Codec, p: string) {
    p != "" && exists r :: p <= c.enc(r)
  }

  ghost predicate AllPieces(c: Codec, ps: seq<string>) {
    forall i :: 0 <= i < |ps| ==> IsPiece(c, ps[i])
  }

  /** No encoding reads as a record before it is complete, and none glued behind another or part of one. */
  ghost predicate Delimits(c: Codec) {
    && (forall r, k: nat :: k < |c.enc(r)| ==> c.dec(c.enc(r)[..k]) == None)
    && (forall ps :: |ps| >= 2 && AllPieces(c, ps) ==> c.dec(Glue(ps)) == None)
  }

  /** The failed append left something behind. */
  predicate Leaves(c: Codec, w: Write) {
    !Landed(c, w) && w.took.Some? && w.took.value > 0
  }

  /** All of the line arrived but its newline. */
  predicate LacksNewline(c: Codec, w: Write) {
    w.took == Some(|c.enc(w.row)|)
  }

  /** Nothing torn precedes a row that lands, and no append on a clean end lacks just its newline. */
  predicate TookHarmless(c: Codec, ws: seq<Write>) {
    forall k :: 0 <= k < |ws| ==>
      && (Landed(c, ws[k]) ==> NoneLeaves(c, ws[..k]))
      && (LacksNewline(c, ws[k]) ==> !NoneLeaves(c, ws[..k]))
  }

  predicate NoneLeaves(c: Codec, ws: seq<Write>) {
    forall j :: 0 <= j < |ws| ==> !Leaves(c, ws[j])
  }

  /** The pieces torn since a row last landed. */
  function Pieces(c: Codec, ws: seq<Write>): seq<string> {
    if ws == [] then []
    else
      var w, before := ws[|ws| - 1], Pieces(c, ws[..|ws| - 1]);
      if Landed(c, w) then [] else if Leaves(c, w) then before + [Piece(c, w)] else before
  }

  lemma EncodedNotEmpty(c: Codec, r: TickRecord)
    requires Valid(c)
    ensures c.enc(r) != ""
  {
    assert c.dec(c.enc(r)) == Some(r);
  }

  lemma LeftPiece(c: Codec, w: Write)
    requires Valid(c) && !Landed(c, w)
    ensures Leaves(c, w) ==> IsPiece(c, Piece(c, w))
    ensures !Leaves(c, w) ==> Piece(c, w) == ""
    ensures LacksNewline(c, w) ==> Leaves(c, w)
  {
    EncodedNotEmpty(c, w.row);
    if Leaves(c, w) {
      assert Piece(c, w) <= c.enc(w.row);
    }
  }

  lemma GlueMore(ps: seq<string>, p: string)
    ensures Glue(ps + [p]) == Glue(ps) + p
  {
    assert (ps + [p])[..|ps|] == ps;
  }

  lemma {:induction false} TornIsGlued(c: Codec, f: File, ws: seq<Write>)
    requires Valid(c) && Terminated(BodyOf(f))
    ensures Torn(c, f, ws) == Glue(Pieces(c, ws)) && AllPieces(c, Pieces(c, ws))
  {
    if ws == [] {
      LastLineSplits(BodyOf(f));
    } else {
      var before, w := ws[..|ws| - 1], ws[|ws| - 1];
      TornIsGlued(c, f, before);
      if !Landed(c, w) {
        LeftPiece(c, w);
        GlueMore(Pieces(c, before), Piece(c, w));
        assert Torn(c, f, before) + "" == Torn(c, f, before);
      }
    }
  }

  /** What a piece more makes of the torn text. */
  lemma MorePieces(c: Codec, ps: seq<string>, p: string)
    requires Valid(c) && Delimits(c) && AllPieces(c, ps) && IsPiece(c, p) && ps != []
    ensures c.dec(Glue(ps) + p) == None
  {
    GlueMore(ps, p);
    assert AllPieces(c, ps + [p]);
  }

  lemma FirstPiece(c: Codec, w: Write)
    requires Valid(c) && Delimits(c) && Leaves(c, w)
    ensures c.dec(Piece(c, w)) == (if LacksNewline(c, w) then Some(w.row) else None)
  {
    EncodedNotEmpty(c, w.row);
    assert c.dec(c.enc(w.row)) == Some(w.row);
  }

  // ----- Harm by what arrived alone -----

  lemma TookPrefix(c: Codec, ws: seq<Write>)
    requires ws != []
    ensures TookHarmless(c, ws) <==>
      var n := |ws| - 1;
      && TookHarmless(c, ws[..n])
      && (Landed(c, ws[n]) ==> NoneLeaves(c, ws[..n])) && (LacksNewline(c, ws[n]) ==> !NoneLeaves(c, ws[..n]))
  {
    var n := |ws| - 1;
    forall k | 0 <= k < n
      ensures ws[..n][..k] == ws[..k]
    {
    }
  }

  lemma {:induction false} NoPieces(c: Codec, ws: seq<Write>)
    requires TookHarmless(c, ws)
    ensures Pieces(c, ws) == [] <==> NoneLeaves(c, ws)
  {
    if ws != [] {
      TookPrefix(c, ws);
      NoPieces(c, ws[..|ws| - 1]);
    }
  }

  lemma {:induction false} HarmlessUnread(c: Codec, f: File, ws: seq<Write>)
    requires Valid(c) && !f.Garbled? && Terminated(BodyOf(f)) && AllHarmless(c, f, ws)
    ensures c.dec(Torn(c, f, ws)) == None
  {
    if ws == [] {
      LastLineSplits(BodyOf(f));
    } else {
      HarmlessPrefix(c, f, ws);
      HarmlessUnread(c, f, ws[..|ws| - 1]);
    }
  }

  lemma LastHarmless(c: Codec, f: File, ws: seq<Write>)
    requires Valid(c) && Delimits(c) && !f.Garbled? && Terminated(BodyOf(f)) && ws != []
    requires AllHarmless(c, f, ws[..|ws| - 1])
    ensures var before, w := ws[..|ws| - 1], ws[|ws| - 1];
      Harmless(c, f, ws, |ws| - 1) <==>
        (Landed(c, w) ==> Pieces(c, before) == []) && (LacksNewline(c, w) ==> Pieces(c, before) != [])
  {
    var before, w := ws[..|ws| - 1], ws[|ws| - 1];
    var ps := Pieces(c, before);
    TornIsGlued(c, f, before);
    HarmlessUnread(c, f, before);
    EncodedNotEmpty(c, w.row);
    if Landed(c, w) {
      LastLanded(c, ps, w);
    } else {
      LeftPiece(c, w);
      LastFailed(c, ps, w);
    }
  }

  lemma LastLanded(c: Codec, ps: seq<string>, w: Write)
    requires Valid(c) && Delimits(c) && AllPieces(c, ps) && Landed(c, w)
    ensures c.dec(Glue(ps) + c.enc(w.row)) == (if ps == [] then Some(w.row) else None)
  {
    var enc := c.enc(w.row);
    EncodedNotEmpty(c, w.row);
    assert IsPiece(c, enc) && "" + enc == enc;
    assert c.dec(enc) == Some(w.row);
    if ps != [] {
      MorePieces(c, ps, enc);
    }
  }

  lemma LastFailed(c: Codec, ps: seq<string>, w: Write)
    requires Valid(c) && Delimits(c) && AllPieces(c, ps) && !Landed(c, w) && c.dec(Glue(ps)) == None
    ensures c.dec(Glue(ps) + Piece(c, w)) ==
            if ps == [] && LacksNewline(c, w) then Some(w.row) else None
  {
    var p := Piece(c, w);
    LeftPiece(c, w);
    assert "" + p == p && Glue(ps) + "" == Glue(ps);
    if Leaves(c, w) {
      FirstPiece(c, w);
      if ps != [] {
        MorePieces(c, ps, p);
      }
    }
  }

  /** From a complete last line, the appends do no harm if and only if nothing torn precedes a row that
      lands, and no append lacks just its newline unless something is torn before it. */
  lemma {:induction false} HarmlessByTook(c: Codec, f: File, ws: seq<Write>)
    requires Valid(c) && Delimits(c) && !f.Garbled? && Terminated(BodyOf(f))
    ensures AllHarmless(c, f, ws) <==> TookHarmless(c, ws)
  {
    if ws != [] {
      var before := ws[..|ws| - 1];
      HarmlessByTook(c, f, before);
      HarmlessPrefix(c, f, ws);
      TookPrefix(c, ws);
      if TookHarmless(c, before) {
        NoPieces(c, before);
        LastHarmless(c, f, ws);
      }
    }
  }

  // ----- Whose record a listed record is -----

  ghost predicate RowOf(ws: seq<Write>, r: TickRecord) {
    exists k :: 0 <= k < |ws| && ws[k].row == r
  }

  lemma RowOfMore(ws: seq<Write>, r: TickRecord)
    requires ws != []
    ensures RowOf(ws[..|ws| - 1], r) || ws[|ws| - 1].row == r ==> RowOf(ws, r)
  {
    if RowOf(ws[..|ws| - 1], r) {
      var k :| 0 <= k < |ws| - 1 && ws[..|ws| - 1][k].row == r;
      assert ws[k].row == r;
    }
  }

  lemma {:induction false} TornRowOf(c: Codec, f: File, ws: seq<Write>, r: TickRecord)
    requires Valid(c) && Delimits(c) && Terminated(BodyOf(f)) && c.dec(Torn(c, f, ws)) == Some(r)
    ensures RowOf(ws, r)
  {
    LastLineSplits(BodyOf(f));
    var before, w := ws[..|ws| - 1], ws[|ws| - 1];
    var ps := Pieces(c, before);
    TornIsGlued(c, f, before);
    LeftPiece(c, w);
    RowOfMore(ws, r);
    var torn := Torn(c, f, before);
    assert torn + "" == torn;
    if !Leaves(c, w) {
      TornRowOf(c, f, before, r);
    } else if ps == [] {
      assert "" + Piece(c, w) == Piece(c, w);
      FirstPiece(c, w);
    } else {
      MorePieces(c, ps, Piece(c, w));
    }
  }

  lemma {:induction false} LineRowOf(c: Codec, f: File, ws: seq<Write>, r: TickRecord)
    requires Valid(c) && Delimits(c) && Terminated(BodyOf(f)) && r in OnLines(c, f, ws)
    ensures r in Records(c, Text(BodyOf(f))) || RowOf(ws, r)
  {
    if ws == [] {
      LastLineSplits(BodyOf(f));
      assert WholeLines(BodyOf(f)) + "" == WholeLines(BodyOf(f));
    } else {
      var before, w := ws[..|ws| - 1], ws[|ws| - 1];
      RowOfMore(ws, r);
      if r in OnLines(c, f, before) {
        LineRowOf(c, f, before, r);
      } else {
        TornIsGlued(c, f, before);
        LastLanded(c, Pieces(c, before), w);
      }
    }
  }

  /** Every record the file lists was found in it or is the row of some append, written or not. */
  lemma ListedIsRow(c: Codec, f: File, ws: seq<Write>, r: TickRecord)
    requires Valid(c) && Delimits(c) && Terminated(BodyOf(f)) && r in Records(c, AfterAll(c, f, ws))
    ensures r in Records(c, f) || RowOf(ws, r)
  {
    if f.Garbled? {
      GarbledStays(c, f, ws);
    } else {
      ListingIs(c, f, ws);
      if r in OnLines(c, f, ws) {
        LineRowOf(c, f, ws, r);
      } else {
        TornRowOf(c, f, ws, r);
      }
    }
  }
}
