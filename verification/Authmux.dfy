/** The account list printed by the authmux command and its loose parser (src/authmux.rs). */
module Authmux {
  import opened Wrappers
  import opened Text
  import opened Lists
  import opened Numbers

  datatype Account = Account(
    email: string,
    kind: Option<string>,
    fiveH: Option<nat>,
    weekly: Option<nat>,
    active: bool)

  datatype Usage = Usage(fiveH: Option<nat>, weekly: Option<nat>)

  const U8_MAX: nat := 255
  const STARS: set<char> := {'*'}
  const PERCENT: set<char> := {'%'}

  // ----- The parser -----

  function ParsePct(s: string): Option<nat> {
    ParseUnsigned(TrimEnd(s, PERCENT), U8_MAX)
  }

  function PctAfter(tok: string, key: string): Option<nat> {
    match StripPrefix(tok, key)
    case None => None
    case Some(v) => ParsePct(v)
  }

  function ScanToken(u: Usage, tok: string): Usage {
    match PctAfter(tok, "5h=")
    case Some(v) => u.(fiveH := Some(v))
    case None =>
      match PctAfter(tok, "weekly=")
      case Some(v) => u.(weekly := Some(v))
      case None => u
  }

  function ScanTokens(toks: seq<string>): Usage {
    if toks == [] then Usage(None, None) else ScanToken(ScanTokens(toks[..|toks| - 1]), toks[|toks| - 1])
  }

  function Sooner(found: Option<nat>, n: nat): nat {
    if found.Some? && found.value < n then found.value else n
  }

  /** Where a type value ends: at the next key or at a double space. */
  function KindEnd(after: string): nat {
    Sooner(Find(after, "5h="), Sooner(Find(after, "weekly="), Sooner(Find(after, "  "), |after|)))
  }

  /** The type value, and the text with the whole type field cut out of it. */
  function TakeKind(joined: string): (Option<string>, string) {
    match Find(joined, "type=")
    case None => (None, joined)
    case Some(idx) =>
      var after := joined[idx + 5..];
      var end := KindEnd(after);
      (Some(Trim(after[..end], SPACES)), joined[..idx] + after[end..])
  }

  function RowLine(raw: string): string {
    Trim(TrimStart(raw, STARS), SPACES)
  }

  /** All leading stars are dropped, and then the padding. */
  lemma RowLineIs(stars: string, pad: string, v: string, end: string)
    requires AllIn(stars, {'*'}) && AllIn(pad, SPACES) && AllIn(end, SPACES) && v != "" && Bare(v, SPACES)
    requires v[0] != '*' || pad != ""
    ensures RowLine(stars + (pad + v + end)) == v
  {
    var rest := pad + v + end;
    assert rest[0] == if pad == "" then v[0] else pad[0];
    TrimStartSkips(stars, rest, STARS);
    assert Lead(rest, STARS) == 0;
    TrimPadded(pad, v, end, SPACES);
  }

  function RowOf(active: bool, toks: seq<string>): Option<Account> {
    if toks == [] || '@' !in toks[0] then None
    else
      var (kind, rest) := TakeKind(Join(toks[1..], " "));
      var u := ScanTokens(Words(rest));
      Some(Account(toks[0], kind, u.fiveH, u.weekly, active))
  }

  function Row(raw: string): Option<Account> {
    RowOf(raw != "" && raw[0] == '*', Words(RowLine(raw)))
  }

  function RowList(raw: string): seq<Account> {
    match Row(raw)
    case None => []
    case Some(a) => [a]
  }

  method ScanUsage(joined: string) returns (fiveH: Option<nat>, weekly: Option<nat>)
    ensures Usage(fiveH, weekly) == ScanTokens(Words(joined))
  {
    fiveH, weekly := None, None;
    var toks := Words(joined);
    for i := 0 to |toks|
      invariant Usage(fiveH, weekly) == ScanTokens(toks[..i])
    {
      assert toks[..i + 1][..i] == toks[..i];
      var v := PctAfter(toks[i], "5h=");
      if v.Some? {
        fiveH := v;
      } else {
        v := PctAfter(toks[i], "weekly=");
        if v.Some? {
          weekly := v;
        }
      }
    }
    assert toks[..|toks|] == toks;
  }

  method SplitKind(fields: string) returns (kind: Option<string>, joined: string)
    ensures (kind, joined) == TakeKind(fields)
  {
    kind, joined := None, fields;
    var idx := Find(joined, "type=");
    if idx.Some? {
      var after := joined[idx.value + 5..];
      var end := KindEnd(after);
      kind := Some(Trim(after[..end], SPACES));
      joined := joined[..idx.value] + after[end..];
    }
  }

  method ParseRow(raw: string) returns (row: Option<Account>)
    ensures row == Row(raw)
  {
    var active := raw != "" && raw[0] == '*';
    var line := Trim(TrimStart(raw, STARS), SPACES);
    if line == "" {
      return None;
    }
    var parts := Words(line);
    if parts == [] || '@' !in parts[0] {
      return None;
    }
    var kind, joined := SplitKind(Join(parts[1..], " "));
    var fiveH, weekly := ScanUsage(joined);
    row := Some(Account(parts[0], kind, fiveH, weekly, active));
  }

  method ParseList(out: string) returns (acc: seq<Account>)
    ensures acc == FlatMap(Lines(out), RowList)
  {
    acc := [];
    var ls := Lines(out);
    for i := 0 to |ls|
      invariant acc == FlatMap(ls[..i], RowList)
    {
      FlatMapStep(ls, i, RowList);
      var row := ParseRow(ls[i]);
      if row.Some? {
        acc := acc + [row.value];
      }
    }
    assert ls[..|ls|] == ls;
  }

  // ----- Printed rows -----

  datatype Pct = FiveH(p: nat) | Weekly(p: nat)

  /** An account row: any percentage fields before and after an optional type field, separated
      by runs of blanks. */
  datatype PrintedRow = PrintedRow(
    active: bool,
    pad: string,
    email: string,
    before: seq<Pct>,
    kind: Option<seq<string>>,
    after: seq<Pct>,
    gap: string)

  predicate Blank(s: string) {
    AllIn(s, SPACES) && '\n' !in s
  }

  predicate GoodPcts(ps: seq<Pct>) {
    forall i :: 0 <= i < |ps| ==> ps[i].p <= U8_MAX
  }

  predicate AllWords(ws: seq<string>) {
    forall i :: 0 <= i < |ws| ==> IsWord(ws[i])
  }

  /** Single-spaced words in which no other key can be recognised. */
  predicate GoodKind(ws: seq<string>) {
    && AllWords(ws)
    && !Contains(Join(ws, " "), "5h=") && !Contains(Join(ws, " "), "weekly=")
  }

  predicate GoodRow(r: PrintedRow) {
    && Blank(r.pad) && Blank(r.gap) && r.gap != ""
    && IsWord(r.email) && '@' in r.email && r.email[0] != '*'
    && GoodPcts(r.before) && GoodPcts(r.after)
    && (r.kind.Some? ==> GoodKind(r.kind.value))
  }

  function ShowPct(f: Pct): string {
    match f
    case FiveH(p) => "5h=" + (Show(p, Ten) + "%")
    case Weekly(p) => "weekly=" + (Show(p, Ten) + "%")
  }

  function ShowPcts(ps: seq<Pct>): (r: seq<string>)
    ensures |r| == |ps| && forall i :: 0 <= i < |ps| ==> r[i] == ShowPct(ps[i])
  {
    seq(|ps|, i requires 0 <= i < |ps| => ShowPct(ps[i]))
  }

  function KindText(ws: seq<string>): string {
    "type=" + Join(ws, " ")
  }

  function KindFields(kind: Option<seq<string>>): seq<string> {
    match kind
    case None => []
    case Some(ws) => [KindText(ws)]
  }

  function ShowRow(r: PrintedRow): string {
    (if r.active then "*" else "")
    + (r.pad + Join([r.email] + (ShowPcts(r.before) + KindFields(r.kind) + ShowPcts(r.after)), r.gap))
  }

  /** The last percentage of each kind. */
  function Latest(ps: seq<Pct>): Usage {
    if ps == [] then Usage(None, None)
    else
      var u := Latest(ps[..|ps| - 1]);
      match ps[|ps| - 1]
      case FiveH(p) => u.(fiveH := Some(p))
      case Weekly(p) => u.(weekly := Some(p))
  }

  function Expected(r: PrintedRow): Account {
    var u := Latest(r.before + r.after);
    Account(r.email, if r.kind.Some? then Some(Join(r.kind.value, " ")) else None, u.fiveH, u.weekly, r.active)
  }

  // ----- Percentage tokens -----

  lemma DigitsAreWord(n: nat)
    ensures forall i :: 0 <= i < |Show(n, Ten)| ==> Show(n, Ten)[i] !in SPACES && Show(n, Ten)[i] != '%'
    ensures 't' !in Show(n, Ten)
  {
    assert forall i :: 0 <= i < |Show(n, Ten)| ==> IsDigit(Show(n, Ten)[i]);
  }

  lemma PctValue(n: nat)
    requires n <= U8_MAX
    ensures ParsePct(Show(n, Ten) + "%") == Some(n)
  {
    var d := Show(n, Ten);
    DigitsAreWord(n);
    TrimEndSkips(d, "%", PERCENT);
    BareStays(d, PERCENT);
    ParseOfShow(n, U8_MAX);
  }

  lemma PctScans(u: Usage, f: Pct)
    requires f.p <= U8_MAX
    ensures ScanToken(u, ShowPct(f)) ==
              match f
              case FiveH(p) => u.(fiveH := Some(p))
              case Weekly(p) => u.(weekly := Some(p))
  {
    var v := Show(f.p, Ten) + "%";
    PctValue(f.p);
    match f
    case FiveH(p) =>
      StripPrefixOf("5h=", v);
    case Weekly(p) =>
      NoPrefix(ShowPct(f), "5h=");
      StripPrefixOf("weekly=", v);
  }

  lemma {:induction false} PctsScan(ps: seq<Pct>)
    requires GoodPcts(ps)
    ensures ScanTokens(ShowPcts(ps)) == Latest(ps)
  {
    if ps != [] {
      var n := |ps| - 1;
      PctsScan(ps[..n]);
      assert ShowPcts(ps)[..n] == ShowPcts(ps[..n]);
      PctScans(Latest(ps[..n]), ps[n]);
    }
  }

  lemma PctIsWord(f: Pct)
    ensures IsWord(ShowPct(f)) && 't' !in ShowPct(f)
    ensures "5h=" <= ShowPct(f) || "weekly=" <= ShowPct(f)
  {
    DigitsAreWord(f.p);
  }

  lemma PctsAreWords(ps: seq<Pct>)
    ensures AllWords(ShowPcts(ps))
    ensures forall i :: 0 <= i < |ps| ==> 't' !in ShowPcts(ps)[i]
  {
    forall i | 0 <= i < |ps|
      ensures IsWord(ShowPcts(ps)[i]) && 't' !in ShowPcts(ps)[i]
    {
      PctIsWord(ps[i]);
    }
  }

  /** What a percentage token is: the key, a number that fits in a byte, and percent signs. */
  ghost predicate IsPct(tok: string, key: string, v: nat) {
    exists digits, signs :: tok == key + (digits + signs) && AllIn(signs, {'%'})
      && (digits != "" ==> digits[|digits| - 1] != '%') && ParseUnsigned(digits, 255) == Some(v)
  }

  lemma PctAfterIff(tok: string, key: string, v: nat)
    ensures PctAfter(tok, key) == Some(v) <==> IsPct(tok, key, v)
  {
    if PctAfter(tok, key) == Some(v) {
      PctRead(tok, key, v);
    }
    if digits, signs :| tok == key + (digits + signs) && AllIn(signs, {'%'})
                        && (digits != "" ==> digits[|digits| - 1] != '%') && ParseUnsigned(digits, 255) == Some(v) {
      StripPrefixOf(key, digits + signs);
      SignsDropped(digits, signs);
    }
  }

  lemma PctRead(tok: string, key: string, v: nat)
    requires PctAfter(tok, key) == Some(v)
    ensures IsPct(tok, key, v)
  {
    var text := tok[|key|..];
    var digits, signs := SignsSplit(text);
    assert tok == key + (digits + signs);
  }

  lemma SignsSplit(text: string) returns (digits: string, signs: string)
    ensures text == digits + signs && AllIn(signs, {'%'}) && digits == TrimEnd(text, PERCENT)
    ensures digits != "" ==> digits[|digits| - 1] != '%'
  {
    var n := |text| - Trail(text, PERCENT);
    digits, signs := text[..n], text[n..];
  }

  lemma SignsDropped(digits: string, signs: string)
    requires AllIn(signs, {'%'}) && (digits != "" ==> digits[|digits| - 1] != '%')
    ensures TrimEnd(digits + signs, PERCENT) == digits
  {
    TrimEndSkips(digits, signs, PERCENT);
    assert Trail(digits, PERCENT) == 0;
  }

  lemma PctStart(tok: string, key: string, v: nat)
    requires IsPct(tok, key, v) && key != ""
    ensures tok != "" && tok[0] == key[0]
  {
  }

  lemma OneKey(tok: string, v: nat, w: nat)
    ensures !(IsPct(tok, "5h=", v) && IsPct(tok, "weekly=", w))
  {
    if IsPct(tok, "5h=", v) && IsPct(tok, "weekly=", w) {
      PctStart(tok, "5h=", v);
      PctStart(tok, "weekly=", w);
      assert false;
    }
  }

  /** What one token does: it sets the percentage it is, and any other token is dropped. */
  lemma TokenMeans(u: Usage, tok: string)
    ensures forall v :: IsPct(tok, "5h=", v) ==> ScanToken(u, tok) == u.(fiveH := Some(v))
    ensures forall v :: IsPct(tok, "weekly=", v) ==> ScanToken(u, tok) == u.(weekly := Some(v))
    ensures (forall v :: !IsPct(tok, "5h=", v) && !IsPct(tok, "weekly=", v)) ==> ScanToken(u, tok) == u
  {
    forall v: nat
      ensures PctAfter(tok, "5h=") == Some(v) <==> IsPct(tok, "5h=", v)
      ensures PctAfter(tok, "weekly=") == Some(v) <==> IsPct(tok, "weekly=", v)
    {
      PctAfterIff(tok, "5h=", v);
      PctAfterIff(tok, "weekly=", v);
    }
    forall v, w
      ensures !(IsPct(tok, "5h=", v) && IsPct(tok, "weekly=", w))
    {
      OneKey(tok, v, w);
    }
  }

  lemma ScanTokensStep(toks: seq<string>, tok: string)
    ensures ScanTokens(toks + [tok]) == ScanToken(ScanTokens(toks), tok)
  {
    assert (toks + [tok])[..|toks|] == toks;
  }

  /** A token that is no percentage may stand anywhere among the others. */
  lemma {:induction false} OtherTokenDropped(before: seq<string>, tok: string, after: seq<string>)
    requires forall v :: !IsPct(tok, "5h=", v) && !IsPct(tok, "weekly=", v)
    ensures ScanTokens(before + [tok] + after) == ScanTokens(before + after)
  {
    if after == [] {
      assert before + [tok] + after == before + [tok] && before + after == before;
      ScanTokensStep(before, tok);
      TokenMeans(ScanTokens(before), tok);
    } else {
      var n := |after| - 1;
      OtherTokenDropped(before, tok, after[..n]);
      assert before + [tok] + after == before + [tok] + after[..n] + [after[n]];
      assert before + after == before + after[..n] + [after[n]];
      ScanTokensStep(before + [tok] + after[..n], after[n]);
      ScanTokensStep(before + after[..n], after[n]);
    }
  }

  // ----- The type field -----

  lemma {:induction false} JoinLacks(ws: seq<string>, c: char, sep: string)
    requires forall i :: 0 <= i < |ws| ==> c !in ws[i]
    requires c !in sep
    ensures c !in Join(ws, sep)
  {
    if |ws| > 1 {
      JoinLacks(ws[1..], c, sep);
    }
  }

  /** Joined words begin and end with a word character. */
  lemma {:induction false} JoinBare(ws: seq<string>)
    requires AllWords(ws)
    ensures Bare(Join(ws, " "), SPACES)
    ensures ws != [] ==> Join(ws, " ") != "" && Join(ws, " ")[0] == ws[0][0]
  {
    if |ws| > 1 {
      var rest := Join(ws[1..], " ");
      JoinBare(ws[1..]);
      assert Join(ws, " ") == ws[0] + " " + rest;
    }
  }

  /** Joined words hold no double space, so the double-space end mark never fires. */
  lemma {:induction false} NoDoubleSpace(ws: seq<string>, i: nat)
    requires AllWords(ws)
    ensures !OccursAt(Join(ws, " "), "  ", i)
  {
    var s := Join(ws, " ");
    if ws != [] && i + 1 < |s| {
      var w := ws[0];
      if |ws| == 1 {
        assert s[i..][0] == w[i];
      } else {
        var rest := Join(ws[1..], " ");
        JoinBare(ws[1..]);
        assert s == w + " " + rest;
        if i < |w| {
          assert s[i..][0] == w[i];
        } else if i == |w| {
          assert s[i..][1] == rest[0];
        } else {
          NoDoubleSpace(ws[1..], i - |w| - 1);
          assert s[i..] == rest[i - |w| - 1..];
        }
      }
    }
  }

  lemma NoneContained(s: string, p: string)
    requires forall i: nat :: !OccursAt(s, p, i)
    ensures !Contains(s, p)
  {
    FindFirst(s, p);
  }

  /** Nor does any part of them. */
  lemma NoDoubleAfter(ws: seq<string>, from: nat)
    requires AllWords(ws) && from <= |Join(ws, " ")|
    ensures !Contains(Join(ws, " ")[from..], "  ")
  {
    var s := Join(ws, " ");
    forall i: nat
      ensures !OccursAt(s[from..], "  ", i)
    {
      NoDoubleSpace(ws, from + i);
      if i <= |s[from..]| {
        assert s[from..][i..] == s[from + i..];
      }
    }
    NoneContained(s[from..], "  ");
  }

  /** The fields of any line at all, joined as the parser joins them. */
  function JoinedFields(raw: string): string {
    var toks := Words(RowLine(raw));
    Join(if toks == [] then [] else toks[1..], " ")
  }

  /** For every line, the type value ends where it would end without the double-space mark. */
  lemma DoubleSpaceIsDead(raw: string)
    ensures !Contains(JoinedFields(raw), "  ")
    ensures Find(JoinedFields(raw), "type=").Some? ==>
              var after := JoinedFields(raw)[Find(JoinedFields(raw), "type=").value + 5..];
              KindEnd(after) == Sooner(Find(after, "5h="), Sooner(Find(after, "weekly="), |after|))
  {
    var toks := Words(RowLine(raw));
    WordsAreWords(RowLine(raw), "");
    var fields := if toks == [] then [] else toks[1..];
    assert AllWords(fields);
    var joined := JoinedFields(raw);
    NoDoubleAfter(fields, 0);
    assert joined[0..] == joined;
    if Find(joined, "type=").Some? {
      NoDoubleAfter(fields, Find(joined, "type=").value + 5);
      EndWithoutDouble(joined[Find(joined, "type=").value + 5..]);
    }
  }

  lemma EndWithoutDouble(after: string)
    requires !Contains(after, "  ")
    ensures KindEnd(after) == Sooner(Find(after, "5h="), Sooner(Find(after, "weekly="), |after|))
  {
  }

  /** A pattern without spaces absent from x does not occur up to a following space either. */
  lemma NotUpToSpace(x: string, p: string, tail: string, i: nat)
    requires !Contains(x, p) && p != "" && ' ' !in p && i <= |x|
    ensures !OccursAt(x + (" " + tail), p, i)
  {
    var s := x + (" " + tail);
    var k := |x| - i;
    FindFirst(x, p);
    if |p| <= k {
      assert s[i..][..|p|] == x[i..][..|p|];
      assert !OccursAt(x, p, i);
    } else {
      assert s[i..][k] == ' ';
      assert p[k] in p;
    }
  }

  lemma NoDoubleUpToSpace(ws: seq<string>, tail: string, i: nat)
    requires AllWords(ws) && tail != "" && tail[0] != ' ' && i <= |Join(ws, " ")|
    ensures !OccursAt(Join(ws, " ") + (" " + tail), "  ", i)
  {
    var x := Join(ws, " ");
    var s := x + (" " + tail);
    JoinBare(ws);
    NoDoubleSpace(ws, i);
    if i + 1 < |x| {
      assert s[i..][..2] == x[i..][..2];
    } else if i < |x| {
      assert s[i..][0] == x[i];
    } else {
      assert s[i..][1] == tail[0];
    }
  }

  lemma SoonerBounds(s: string, p: string, n: nat, m: nat)
    requires forall i: nat :: i < m ==> !OccursAt(s, p, i)
    requires m <= n
    ensures m <= Sooner(Find(s, p), n) <= n
    ensures OccursAt(s, p, m) ==> Sooner(Find(s, p), n) == m
  {
    FindFirst(s, p);
  }

  /** A type value followed by another key ends right before that key. */
  lemma KindEndsAtKey(ws: seq<string>, tail: string)
    requires GoodKind(ws)
    requires "5h=" <= tail || "weekly=" <= tail
    ensures KindEnd(Join(ws, " ") + (" " + tail)) == |Join(ws, " ")| + 1
  {
    var x := Join(ws, " ");
    var s, m := x + (" " + tail), |x| + 1;
    assert s[m..] == tail;
    forall i: nat | i < m
      ensures !OccursAt(s, "5h=", i) && !OccursAt(s, "weekly=", i) && !OccursAt(s, "  ", i)
    {
      NotUpToSpace(x, "5h=", tail, i);
      NotUpToSpace(x, "weekly=", tail, i);
      NoDoubleUpToSpace(ws, tail, i);
    }
    SoonerBounds(s, "  ", |s|, m);
    SoonerBounds(s, "weekly=", Sooner(Find(s, "  "), |s|), m);
    SoonerBounds(s, "5h=", Sooner(Find(s, "weekly="), Sooner(Find(s, "  "), |s|)), m);
  }

  /** A type value at the end of the row runs to the end. */
  lemma KindEndsAtEnd(ws: seq<string>)
    requires GoodKind(ws)
    ensures KindEnd(Join(ws, " ")) == |Join(ws, " ")|
  {
    FindFirst(Join(ws, " "), "  ");
    if Find(Join(ws, " "), "  ").Some? {
      NoDoubleSpace(ws, Find(Join(ws, " "), "  ").value);
    }
  }

  lemma TypeIsFirst(pre: string, tail: string)
    requires 't' !in pre
    ensures Find(pre + ("type=" + tail), "type=") == Some(|pre|)
  {
    var s := pre + ("type=" + tail);
    assert s[|pre|..] == "type=" + tail;
    forall j: nat | j < |pre|
      ensures !OccursAt(s, "type=", j)
    {
      assert s[j..][0] == pre[j];
      assert pre[j] in pre;
    }
    FindIs(s, "type=", |pre|);
  }

  lemma TakeKindAt(pre: string, after: string, end: nat, kind: string, rest: string)
    requires 't' !in pre && KindEnd(after) == end && end <= |after|
    requires Trim(after[..end], SPACES) == kind && after[end..] == rest
    ensures TakeKind(pre + ("type=" + after)) == (Some(kind), pre + rest)
  {
    var s := pre + ("type=" + after);
    TypeIsFirst(pre, after);
    assert s[|pre| + 5..] == after && s[..|pre|] == pre;
  }

  lemma TakeKindLast(pre: string, ws: seq<string>)
    requires 't' !in pre && GoodKind(ws)
    ensures TakeKind(pre + KindText(ws)) == (Some(Join(ws, " ")), pre)
  {
    var kind := Join(ws, " ");
    JoinBare(ws);
    BareStays(kind, SPACES);
    KindEndsAtEnd(ws);
    assert kind[..|kind|] == kind && kind[|kind|..] == "" && pre + "" == pre;
    TakeKindAt(pre, kind, |kind|, kind, "");
  }

  lemma TrimOneSpace(kind: string)
    requires Bare(kind, SPACES)
    ensures Trim(kind + " ", SPACES) == kind
  {
    TrimPadded("", kind, " ", SPACES);
    assert "" + kind + " " == kind + " ";
  }

  lemma KindBeforeKey(kind: string, tail: string, after: string, end: nat)
    requires Bare(kind, SPACES) && after == kind + (" " + tail) && end == |kind| + 1
    ensures Trim(after[..end], SPACES) == kind && after[end..] == tail
  {
    assert after[..end] == kind + " " && after[end..] == tail;
    TrimOneSpace(kind);
  }

  lemma TakeKindInner(pre: string, ws: seq<string>, tail: string)
    requires 't' !in pre && GoodKind(ws)
    requires "5h=" <= tail || "weekly=" <= tail
    ensures TakeKind(pre + ("type=" + (Join(ws, " ") + (" " + tail)))) == (Some(Join(ws, " ")), pre + tail)
  {
    var kind := Join(ws, " ");
    var after := kind + (" " + tail);
    JoinBare(ws);
    KindBeforeKey(kind, tail, after, |kind| + 1);
    KindEndsAtKey(ws, tail);
    TakeKindAt(pre, after, |kind| + 1, kind, tail);
  }

  // ----- Rows -----

  function KindTokens(kind: Option<seq<string>>): seq<string> {
    match kind
    case None => []
    case Some(ws) => if ws == [] then ["type="] else ["type=" + ws[0]] + ws[1..]
  }

  lemma Reassociate(a: string, b: string, c: string, d: string)
    ensures a + b + c + d == a + (b + c + d)
  {
  }

  lemma KindTokensText(ws: seq<string>)
    ensures Join(KindTokens(Some(ws)), " ") == KindText(ws)
  {
    if |ws| > 1 {
      var toks, rest := KindTokens(Some(ws)), Join(ws[1..], " ");
      assert toks[1..] == ws[1..];
      Reassociate("type=", ws[0], " ", rest);
    }
  }

  lemma KindTokensWords(kind: Option<seq<string>>)
    requires kind.Some? ==> AllWords(kind.value)
    ensures AllWords(KindTokens(kind))
    ensures kind.Some? ==> Words(KindText(kind.value)) == KindTokens(kind)
  {
    if kind.Some? {
      KindTokensText(kind.value);
      WordsOfJoin(KindTokens(kind));
    }
  }

  lemma {:induction false} JoinApart(a: seq<string>, b: seq<string>, sep: string)
    requires a != [] && b != []
    ensures Join(a + b, sep) == Join(a, sep) + sep + Join(b, sep)
  {
    assert (a + b)[1..] == a[1..] + b;
    if |a| == 1 {
      assert a[1..] + b == b;
    } else {
      JoinApart(a[1..], b, sep);
      assert Join(a + b, sep) == a[0] + sep + Join(a[1..] + b, sep);
      assert a[0] + sep + (Join(a[1..], sep) + sep + Join(b, sep))
          == a[0] + sep + Join(a[1..], sep) + sep + Join(b, sep);
    }
  }

  /** The text before a group of tokens, with its separating space. */
  function Prefix(a: seq<string>): string {
    if a == [] then "" else Join(a, " ") + " "
  }

  lemma JoinPrefix(a: seq<string>, b: seq<string>)
    requires b != []
    ensures Join(a + b, " ") == Prefix(a) + Join(b, " ")
  {
    if a == [] {
      assert a + b == b;
    } else {
      JoinApart(a, b, " ");
    }
  }

  lemma PrefixWords(a: seq<string>)
    requires AllWords(a)
    ensures Words(Prefix(a)) == a
  {
    if a != [] {
      WordsOfJoin(a);
      WordsPadded(Join(a, " "), " ", "");
    }
  }

  lemma KindLast(before: seq<Pct>, ws: seq<string>)
    requires GoodKind(ws)
    ensures var (kind, rest) := TakeKind(Join(ShowPcts(before) + KindTokens(Some(ws)), " "));
            kind == Some(Join(ws, " ")) && Words(rest) == ShowPcts(before)
  {
    var a := ShowPcts(before);
    PctsAreWords(before);
    JoinLacks(a, 't', " ");
    KindTokensText(ws);
    PrefixWords(a);
    JoinPrefix(a, KindTokens(Some(ws)));
    TakeKindLast(Prefix(a), ws);
  }

  lemma KindInner(before: seq<Pct>, ws: seq<string>, after: seq<Pct>)
    requires GoodKind(ws) && after != []
    ensures var (kind, rest) := TakeKind(Join(ShowPcts(before) + (KindTokens(Some(ws)) + ShowPcts(after)), " "));
            kind == Some(Join(ws, " ")) && Words(rest) == ShowPcts(before) + ShowPcts(after)
  {
    var a, b, k := ShowPcts(before), ShowPcts(after), KindTokens(Some(ws));
    var tail := Join(b, " ");
    PctsAreWords(before);
    PctsAreWords(after);
    JoinLacks(a, 't', " ");
    PctIsWord(after[0]);
    TailStarts(b, tail);
    JoinPrefix(a, k + b);
    KindThenTail(ws, b);
    TakeKindInner(Prefix(a), ws, tail);
    JoinPrefix(a, b);
    WordsAll(a, b);
  }

  lemma KindThenTail(ws: seq<string>, b: seq<string>)
    requires b != []
    ensures Join(KindTokens(Some(ws)) + b, " ") == "type=" + (Join(ws, " ") + (" " + Join(b, " ")))
  {
    JoinApart(KindTokens(Some(ws)), b, " ");
    KindTokensText(ws);
  }

  lemma FieldsWithKind(before: seq<Pct>, ws: seq<string>, after: seq<Pct>)
    requires GoodKind(ws)
    ensures var (kind, rest) := TakeKind(Join(ShowPcts(before) + KindTokens(Some(ws)) + ShowPcts(after), " "));
            kind == Some(Join(ws, " ")) && Words(rest) == ShowPcts(before) + ShowPcts(after)
  {
    var a, b, k := ShowPcts(before), ShowPcts(after), KindTokens(Some(ws));
    if after == [] {
      assert a + k + b == a + k && a + b == a;
      KindLast(before, ws);
    } else {
      assert a + k + b == a + (k + b);
      KindInner(before, ws, after);
    }
  }

  lemma TailStarts(b: seq<string>, tail: string)
    requires b != [] && tail == Join(b, " ")
    ensures "5h=" <= b[0] ==> "5h=" <= tail
    ensures "weekly=" <= b[0] ==> "weekly=" <= tail
  {
    assert tail[..|b[0]|] == b[0];
  }

  lemma WordsAll(a: seq<string>, b: seq<string>)
    requires AllWords(a) && AllWords(b)
    ensures Words(Join(a + b, " ")) == a + b
  {
    WordsOfJoin(a + b);
  }

  lemma TypeAbsent(s: string)
    requires 't' !in s
    ensures Find(s, "type=") == None
  {
    FindFirst(s, "type=");
    forall i: nat
      ensures !OccursAt(s, "type=", i)
    {
      if i < |s| {
        assert s[i..][0] == s[i];
        assert s[i] in s;
      }
    }
  }

  lemma FieldsWithoutKind(before: seq<Pct>, after: seq<Pct>)
    ensures var (kind, rest) := TakeKind(Join(ShowPcts(before) + ShowPcts(after), " "));
            kind == None && Words(rest) == ShowPcts(before) + ShowPcts(after)
  {
    var a, b := ShowPcts(before), ShowPcts(after);
    PctsAreWords(before);
    PctsAreWords(after);
    JoinLacks(a + b, 't', " ");
    TypeAbsent(Join(a + b, " "));
    WordsAll(a, b);
  }

  lemma PctsAppend(a: seq<Pct>, b: seq<Pct>)
    ensures ShowPcts(a + b) == ShowPcts(a) + ShowPcts(b)
  {
  }

  /** From its tokens a printed row is read back. */
  lemma RowOfParts(active: bool, email: string, fields: seq<string>, kind: Option<string>, rest: string, u: Usage)
    requires '@' in email && TakeKind(Join(fields, " ")) == (kind, rest) && ScanTokens(Words(rest)) == u
    ensures RowOf(active, [email] + fields) == Some(Account(email, kind, u.fiveH, u.weekly, active))
  {
    assert ([email] + fields)[1..] == fields;
  }

  lemma FieldsRecover(before: seq<Pct>, kind: Option<seq<string>>, after: seq<Pct>)
    requires kind.Some? ==> GoodKind(kind.value)
    ensures var (k, rest) := TakeKind(Join(ShowPcts(before) + KindTokens(kind) + ShowPcts(after), " "));
            && k == (if kind.Some? then Some(Join(kind.value, " ")) else None)
            && Words(rest) == ShowPcts(before + after)
  {
    PctsAppend(before, after);
    match kind {
      case None =>
        assert ShowPcts(before) + [] == ShowPcts(before);
        FieldsWithoutKind(before, after);
      case Some(ws) =>
        FieldsWithKind(before, ws, after);
    }
  }

  /** From its tokens a printed row is read back. */
  lemma TokensRecover(r: PrintedRow)
    requires GoodRow(r)
    ensures RowOf(r.active, [r.email] + (ShowPcts(r.before) + KindTokens(r.kind) + ShowPcts(r.after))) ==
              Some(Expected(r))
  {
    var fields := ShowPcts(r.before) + KindTokens(r.kind) + ShowPcts(r.after);
    var (kind, rest) := TakeKind(Join(fields, " "));
    FieldsRecover(r.before, r.kind, r.after);
    PctsScan(r.before + r.after);
    RowOfParts(r.active, r.email, fields, kind, rest, Latest(r.before + r.after));
  }

  // ----- From text to tokens -----

  function WordLists(texts: seq<string>): seq<string> {
    if texts == [] then [] else Words(texts[0]) + WordLists(texts[1..])
  }

  lemma {:induction false} WordsSpaced(texts: seq<string>, gap: string)
    requires gap != "" && AllIn(gap, SPACES)
    ensures Words(Join(texts, gap)) == WordLists(texts)
  {
    if |texts| == 1 {
      assert texts[1..] == [];
    } else if |texts| > 1 {
      WordsSpaced(texts[1..], gap);
      WordsApart(texts[0], gap, Join(texts[1..], gap));
    }
  }

  lemma {:induction false} WordListsAppend(a: seq<string>, b: seq<string>)
    ensures WordLists(a + b) == WordLists(a) + WordLists(b)
  {
    if a == [] {
      assert a + b == b;
    } else {
      assert (a + b)[1..] == a[1..] + b;
      WordListsAppend(a[1..], b);
    }
  }

  lemma {:induction false} WordListsOfWords(ws: seq<string>)
    requires AllWords(ws)
    ensures WordLists(ws) == ws
  {
    if ws != [] {
      WordGrows(ws[0], "");
      assert "" + ws[0] == ws[0];
      WordListsOfWords(ws[1..]);
    }
  }

  lemma KindFieldTokens(kind: Option<seq<string>>)
    requires kind.Some? ==> AllWords(kind.value)
    ensures WordLists(KindFields(kind)) == KindTokens(kind)
  {
    KindTokensWords(kind);
    if kind.Some? {
      assert KindFields(kind)[1..] == [];
    }
  }

  function Texts(r: PrintedRow): seq<string> {
    [r.email] + (ShowPcts(r.before) + KindFields(r.kind) + ShowPcts(r.after))
  }

  lemma TextTokens(r: PrintedRow)
    requires GoodRow(r)
    ensures WordLists(Texts(r)) == [r.email] + (ShowPcts(r.before) + KindTokens(r.kind) + ShowPcts(r.after))
  {
    var a, k, b := ShowPcts(r.before), KindFields(r.kind), ShowPcts(r.after);
    PctsAreWords(r.before);
    PctsAreWords(r.after);
    WordListsOfWords(a);
    WordListsOfWords(b);
    WordListsOfWords([r.email]);
    KindFieldTokens(r.kind);
    WordListsAppend(a, k);
    WordListsAppend(a + k, b);
    WordListsAppend([r.email], a + k + b);
  }

  lemma StarsGone(r: PrintedRow, text: string)
    requires GoodRow(r) && text != "" && text[0] == r.email[0]
    ensures var s := (if r.active then "*" else "") + (r.pad + text);
            TrimStart(s, STARS) == r.pad + text && (s != "" && s[0] == '*' <==> r.active)
  {
    var t := r.pad + text;
    var lead := if r.active then "*" else "";
    if r.pad == "" {
      assert t[0] == text[0];
    } else {
      assert t[0] == r.pad[0];
      assert t[0] in SPACES;
    }
    assert t[0] != '*';
    assert Lead(t, STARS) == 0;
    TrimStartSkips(lead, t, STARS);
  }

  /** Parsing undoes printing for one row. */
  lemma RowRecovers(r: PrintedRow)
    requires GoodRow(r)
    ensures Row(ShowRow(r)) == Some(Expected(r))
  {
    var text := Join(Texts(r), r.gap);
    assert text[0] == r.email[0];
    StarsGone(r, text);
    WordsOfTrim(r.pad + text);
    WordsSkip(r.pad, text);
    WordsSpaced(Texts(r), r.gap);
    TextTokens(r);
    TokensRecover(r);
  }

  lemma {:induction false} JoinLast(ts: seq<string>, sep: string)
    requires ts != [] && ts[|ts| - 1] != ""
    ensures var s, t := Join(ts, sep), ts[|ts| - 1]; s != "" && s[|s| - 1] == t[|t| - 1]
  {
    if |ts| > 1 {
      JoinLast(ts[1..], sep);
    }
  }

  /** Texts that can be joined into one line. */
  predicate SolidText(t: string) {
    '\n' !in t && t != "" && t[|t| - 1] !in SPACES
  }

  lemma KindIsSolid(ws: seq<string>)
    requires AllWords(ws)
    ensures SolidText(KindText(ws))
  {
    KindTokensWords(Some(ws));
    KindTokensText(ws);
    JoinBare(KindTokens(Some(ws)));
    JoinLacks(KindTokens(Some(ws)), '\n', " ");
  }

  lemma TextsAreSolid(r: PrintedRow)
    requires GoodRow(r)
    ensures forall i :: 0 <= i < |Texts(r)| ==> SolidText(Texts(r)[i])
  {
    PctsAreWords(r.before);
    PctsAreWords(r.after);
    if r.kind.Some? {
      KindIsSolid(r.kind.value);
    }
  }

  lemma RowIsPlain(r: PrintedRow)
    requires GoodRow(r)
    ensures PlainLine(ShowRow(r))
  {
    TextsAreSolid(r);
    JoinLacks(Texts(r), '\n', r.gap);
    JoinLast(Texts(r), r.gap);
  }

  // ----- Lists -----

  /** A line of the listing: an account row, or anything whose first token is no address. */
  datatype ListLine = AccountLine(row: PrintedRow) | NoiseLine(text: string)

  predicate GoodListLine(l: ListLine) {
    match l
    case AccountLine(r) => GoodRow(r)
    case NoiseLine(t) =>
      PlainLine(t) && (Words(RowLine(t)) == [] || '@' !in Words(RowLine(t))[0])
  }

  function ShowListLine(l: ListLine): string {
    match l
    case AccountLine(r) => ShowRow(r)
    case NoiseLine(t) => t
  }

  function ShowListing(ls: seq<ListLine>): seq<string> {
    if ls == [] then [] else [ShowListLine(ls[0])] + ShowListing(ls[1..])
  }

  function Accounts(ls: seq<ListLine>): seq<Account> {
    if ls == [] then []
    else LineAccounts(ls[0]) + Accounts(ls[1..])
  }

  function LineAccounts(l: ListLine): seq<Account> {
    if l.AccountLine? then [Expected(l.row)] else []
  }

  lemma ListLineRecovers(l: ListLine)
    requires GoodListLine(l)
    ensures PlainLine(ShowListLine(l)) && RowList(ShowListLine(l)) == LineAccounts(l)
  {
    if l.AccountLine? {
      RowRecovers(l.row);
      RowIsPlain(l.row);
    }
  }

  lemma {:induction false} ListingRecovers(ls: seq<ListLine>)
    requires forall i :: 0 <= i < |ls| ==> GoodListLine(ls[i])
    ensures FlatMap(ShowListing(ls), RowList) == Accounts(ls)
    ensures forall i :: 0 <= i < |ShowListing(ls)| ==> PlainLine(ShowListing(ls)[i])
  {
    if ls != [] {
      ListingRecovers(ls[1..]);
      ListLineRecovers(ls[0]);
    }
  }

  /** Parsing undoes printing for a whole listing; lines that are no account rows are dropped. */
  lemma ListRecovers(ls: seq<ListLine>)
    requires forall i :: 0 <= i < |ls| ==> GoodListLine(ls[i])
    ensures FlatMap(Lines(Unlines(ShowListing(ls))), RowList) == Accounts(ls)
  {
    ListingRecovers(ls);
    LinesOfUnlines(ShowListing(ls));
  }
}
