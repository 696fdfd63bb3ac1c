/** Wikilink extraction from the body of a memory file (src/audit.rs), skipping fenced code blocks
    and inline code spans. */
module Wikilinks {
  import opened Wrappers
  import opened Text
  import opened Lists

  // ----- Inline code -----

  function Strip(line: string, inCode: bool): string {
    if line == "" then ""
    else if line[0] == '`' then Strip(line[1..], !inCode)
    else if inCode then Strip(line[1..], true)
    else [line[0]] + Strip(line[1..], false)
  }

  method StripInlineCode(line: string) returns (out: string)
    ensures out == Strip(line, false)
  {
    out := "";
    var inCode := false;
    for i := 0 to |line|
      invariant out + Strip(line[i..], inCode) == Strip(line, false)
    {
      assert line[i..][1..] == line[i + 1..];
      var ch := line[i];
      if ch == '`' {
        inCode := !inCode;
        continue;
      }
      if !inCode {
        assert out + ([ch] + Strip(line[i + 1..], false)) == out + [ch] + Strip(line[i + 1..], false);
        out := out + [ch];
      }
    }
  }

  /** Whether code is open after the line: an odd number of backticks toggles it. */
  function CodeAfter(line: string, inCode: bool): bool {
    if line == "" then inCode else CodeAfter(line[1..], if line[0] == '`' then !inCode else inCode)
  }

  lemma {:induction false} StripAppend(u: string, v: string, inCode: bool)
    ensures Strip(u + v, inCode) == Strip(u, inCode) + Strip(v, CodeAfter(u, inCode))
  {
    if u == "" {
      assert u + v == v;
    } else {
      assert (u + v)[1..] == u[1..] + v;
      StripAppend(u[1..], v, if u[0] == '`' then !inCode else inCode);
    }
  }

  lemma {:induction false} StripPlain(u: string, inCode: bool)
    requires '`' !in u
    ensures Strip(u, inCode) == (if inCode then "" else u) && CodeAfter(u, inCode) == inCode
  {
    if u != "" {
      assert u[1..] <= u[1..] && forall c :: c in u[1..] ==> c in u;
      StripPlain(u[1..], inCode);
      assert [u[0]] + u[1..] == u;
    }
  }

  /** A complete inline span leaves no trace where no span is open. */
  lemma SpanVanishes(u: string, code: string, v: string)
    requires '`' !in code && !CodeAfter(u, false)
    ensures Strip(u + ("`" + code + "`" + v), false) == Strip(u + v, false)
  {
    var tick := "`";
    var tail := tick + v;
    assert tick + code + tick + v == tick + (code + tail);
    StripAppend(u, tick + (code + tail), false);
    StripAppend(tick, code + tail, false);
    assert tick[1..] == "";
    assert Strip(tick, false) == "" && CodeAfter(tick, false) && !CodeAfter(tick, true);
    StripPlain(code, true);
    StripAppend(code, tail, true);
    StripAppend(tick, v, true);
    assert Strip(tick, true) == "";
    StripAppend(u, v, false);
  }

  /** One that is never closed takes the rest of the line with it. */
  lemma UnclosedSpan(u: string, v: string)
    requires '`' !in v && !CodeAfter(u, false)
    ensures Strip(u + ("`" + v), false) == Strip(u, false)
  {
    var tick := "`";
    StripAppend(u, tick + v, false);
    StripAppend(tick, v, false);
    assert tick[1..] == "";
    assert Strip(tick, false) == "" && CodeAfter(tick, false);
    StripPlain(v, true);
  }

  /** Code is open after an odd number of backticks. */
  lemma {:induction false} CodeIsOdd(line: string, inCode: bool)
    ensures CodeAfter(line, inCode) <==> (Count(line, c => c == '`') % 2 == 1) != inCode
  {
    if line != "" {
      var n := |line| - 1;
      CodeIsOdd(line[..n], inCode);
      CodeAfterAppend(line[..n], [line[n]], inCode);
      assert line == line[..n] + [line[n]];
      assert [line[n]][1..] == "";
    }
  }

  lemma {:induction false} CodeAfterAppend(u: string, v: string, inCode: bool)
    ensures CodeAfter(u + v, inCode) == CodeAfter(v, CodeAfter(u, inCode))
  {
    if u == "" {
      assert u + v == v;
    } else {
      assert (u + v)[1..] == u[1..] + v;
      CodeAfterAppend(u[1..], v, if u[0] == '`' then !inCode else inCode);
    }
  }

  // ----- Links in one line -----

  const OPEN: string := "[["
  const CLOSE: string := "]]"

  function SlugOf(inner: string): seq<string> {
    var slug := Trim(inner, SPACES);
    if slug == "" then [] else [slug]
  }

  function Links(rest: string): seq<string>
    decreases |rest|
  {
    match Cut(rest, OPEN)
    case None => []
    case Some((_, after)) =>
      match Cut(after, CLOSE)
      case None => []
      case Some((inner, later)) => SlugOf(inner) + Links(later)
  }

  method ScanLinks(stripped: string) returns (out: seq<string>)
    ensures out == Links(stripped)
  {
    out := [];
    var rest := stripped;
    while true
      invariant out + Links(rest) == Links(stripped)
      decreases |rest|
    {
      var open := Cut(rest, OPEN);
      if open.None? {
        break;
      }
      var after := open.value.1;
      var close := Cut(after, CLOSE);
      if close.None? {
        break;
      }
      var (inner, later) := close.value;
      LinksStep(rest, after, inner, later, out);
      var slug := Trim(inner, SPACES);
      if slug != "" {
        out := out + [slug];
      }
      rest := later;
    }
  }

  lemma LinksStep(rest: string, after: string, inner: string, later: string, out: seq<string>)
    requires Cut(rest, OPEN).Some? && Cut(rest, OPEN).value.1 == after
    requires Cut(after, CLOSE) == Some((inner, later))
    ensures out + Links(rest) ==
              (if Trim(inner, SPACES) == "" then out else out + [Trim(inner, SPACES)]) + Links(later)
  {
    Reassociate(out, SlugOf(inner), Links(later), []);
    assert out + [] == out;
  }

  /** x neither contains c doubled nor ends in c. */
  predicate Clears(x: string, c: char) {
    !Contains(x, [c, c]) && (x != "" ==> x[|x| - 1] != c)
  }

  lemma NotBefore(x: string, c: char, rest: string, j: nat)
    requires Clears(x, c) && j < |x|
    ensures !OccursAt(x + ([c, c] + rest), [c, c], j)
  {
    var p := [c, c];
    var s := x + (p + rest);
    FindFirst(x, p);
    assert s[j..] == x[j..] + (p + rest);
    if j + 1 < |x| {
      assert s[j..][..2] == x[j..][..2];
      assert !OccursAt(x, p, j);
    } else {
      assert s[j..][0] == x[j];
    }
  }

  lemma DoubledInside(x: string, p: string, tail: string, j: nat)
    requires OccursAt(x, p, j)
    ensures OccursAt(x + tail, p, j)
  {
    assert (x + tail)[j..] == x[j..] + tail;
  }

  lemma DoubledAcross(x: string, c: char, tail: string)
    requires x != "" && x[|x| - 1] == c && tail != "" && tail[0] == c
    ensures OccursAt(x + tail, [c, c], |x| - 1)
  {
    assert (x + tail)[|x| - 1..] == [c] + tail;
  }

  /** A text is cut right after x exactly when x neither contains the doubled character nor
      ends in it. */
  lemma CutDoubled(x: string, c: char, rest: string)
    ensures Cut(x + ([c, c] + rest), [c, c]) == Some((x, rest)) <==> Clears(x, c)
  {
    var p := [c, c];
    var s := x + (p + rest);
    FindFirst(s, p);
    assert s[|x|..] == p + rest && s[..|x|] == x && s[|x| + 2..] == rest;
    if Clears(x, c) {
      forall j: nat | j < |x|
        ensures !OccursAt(s, p, j)
      {
        NotBefore(x, c, rest, j);
      }
      FindIs(s, p, |x|);
    } else if x != "" && x[|x| - 1] == c {
      DoubledAcross(x, c, p + rest);
      assert |Cut(s, p).value.0| <= |x| - 1;
    } else {
      FindFirst(x, p);
      var j := Find(x, p).value;
      DoubledInside(x, p, p + rest, j);
      assert |Cut(s, p).value.0| <= j;
    }
  }

  lemma LinkStep(filler: string, inner: string, rest: string)
    requires Clears(filler, '[') && Clears(inner, ']')
    ensures Links(filler + (OPEN + (inner + (CLOSE + rest)))) == SlugOf(inner) + Links(rest)
  {
    assert OPEN == ['[', '['] && CLOSE == [']', ']'];
    CutDoubled(filler, '[', inner + (CLOSE + rest));
    CutDoubled(inner, ']', rest);
  }

  /** Text without two opening brackets in a row, or with none closed after the first, holds no link. */
  lemma NoLink(s: string, i: nat)
    ensures !Occurs(s, "[[") ==> Links(s) == []
    ensures FirstAt(s, "[[", i) && !Occurs(s[i + 2..], "]]") ==> Links(s) == []
  {
    CutAt(s, OPEN, i);
    if FirstAt(s, OPEN, i) {
      CutAt(s[i + 2..], CLOSE, 0);
    }
  }

  /** Otherwise the first link is what lies between them, trimmed, if anything is left of it, and the others
      follow after it. */
  lemma FirstLink(s: string, i: nat, j: nat)
    requires FirstAt(s, "[[", i) && FirstAt(s[i + 2..], "]]", j)
    ensures var slug := Trim(s[i + 2..][..j], SPACES);
      Links(s) == (if slug == "" then [] else [slug]) + Links(s[i + 2..][j + 2..])
  {
    var after := s[i + 2..];
    CutAt(s, OPEN, i);
    CutAt(after, CLOSE, j);
    assert after[..j] == s[i + 2..][..j];
  }

  // ----- Printing lines of links -----

  /** Filler text followed by a wikilink whose slug may be padded. */
  datatype Segment = Segment(filler: string, left: string, slug: string, right: string)

  datatype LinkLine = LinkLine(segments: seq<Segment>, tail: string)

  predicate Inline(s: string) {
    '`' !in s && '\n' !in s
  }

  predicate GoodSegment(g: Segment) {
    && Inline(g.filler) && Inline(g.left) && Inline(g.slug) && Inline(g.right)
    && Clears(g.filler, '[') && Clears(g.left + g.slug + g.right, ']')
    && g.slug != "" && Bare(g.slug, SPACES) && AllIn(g.left, SPACES) && AllIn(g.right, SPACES)
  }

  predicate GoodLine(l: LinkLine) {
    && Inline(l.tail) && PlainLine(l.tail) && !Contains(l.tail, OPEN)
    && forall g :: g in l.segments ==> GoodSegment(g)
  }

  function ShowSegments(gs: seq<Segment>, tail: string): string {
    if gs == [] then tail
    else gs[0].filler + (OPEN + (gs[0].left + gs[0].slug + gs[0].right + (CLOSE + ShowSegments(gs[1..], tail))))
  }

  function Slugs(gs: seq<Segment>): seq<string> {
    if gs == [] then [] else [gs[0].slug] + Slugs(gs[1..])
  }

  lemma {:induction false} LinksOfSegments(gs: seq<Segment>, tail: string)
    requires forall g :: g in gs ==> GoodSegment(g)
    requires !Contains(tail, OPEN)
    ensures Links(ShowSegments(gs, tail)) == Slugs(gs)
  {
    if gs != [] {
      var g := gs[0];
      assert g in gs && GoodSegment(g);
      LinksOfSegments(gs[1..], tail);
      LinkStep(g.filler, g.left + g.slug + g.right, ShowSegments(gs[1..], tail));
      TrimPadded(g.left, g.slug, g.right, SPACES);
    }
  }

  lemma ClosedLine(before: string, close: string, rest: string)
    requires Inline(before) && Inline(close) && Inline(rest) && PlainLine(rest)
    requires close != "" && close[|close| - 1] != '\r'
    ensures Inline(before + (close + rest)) && PlainLine(before + (close + rest))
  {
    var s := before + (close + rest);
    if rest == "" {
      assert s[|s| - 1] == close[|close| - 1];
    } else {
      assert s[|s| - 1] == rest[|rest| - 1];
    }
  }

  lemma {:induction false} ShownInline(gs: seq<Segment>, tail: string)
    requires forall g :: g in gs ==> GoodSegment(g)
    requires Inline(tail) && PlainLine(tail)
    ensures Inline(ShowSegments(gs, tail)) && PlainLine(ShowSegments(gs, tail))
  {
    if gs != [] {
      var g, rest := gs[0], ShowSegments(gs[1..], tail);
      ShownInline(gs[1..], tail);
      assert GoodSegment(g);
      var inner := g.left + g.slug + g.right;
      assert Inline(OPEN) && Inline(CLOSE) && CLOSE[1] == ']';
      assert Inline(inner);
      ClosedLine(inner, CLOSE, rest);
      ClosedLine(g.filler, OPEN, inner + (CLOSE + rest));
    }
  }

  // ----- Bodies -----

  predicate IsFence(line: string) {
    "```" <= TrimStart(line, SPACES)
  }

  /** A fence is three backticks behind any indentation. */
  lemma FenceIff(l: string)
    ensures IsFence(l) <==> exists pad, rest :: AllIn(pad, SPACES) && l == pad + ("```" + rest)
  {
    if IsFence(l) {
      var k := Lead(l, SPACES);
      assert l == l[..k] + ("```" + l[k..][3..]);
    }
    if pad, rest :| AllIn(pad, SPACES) && l == pad + ("```" + rest) {
      TrimStartSkips(pad, "```" + rest, SPACES);
      assert Lead("```" + rest, SPACES) == 0;
    }
  }

  function Toggled(line: string, inFenced: bool): bool {
    if IsFence(line) then !inFenced else inFenced
  }

  function LineLinks(line: string, inFenced: bool): seq<string> {
    if IsFence(line) || inFenced then [] else Links(Strip(line, false))
  }

  function Collect(ls: seq<string>, inFenced: bool): seq<string> {
    if ls == [] then [] else LineLinks(ls[0], inFenced) + Collect(ls[1..], Toggled(ls[0], inFenced))
  }

  function BodyLinks(body: string): seq<string> {
    Collect(Lines(body), false)
  }

  method ExtractWikilinks(body: string) returns (out: seq<string>)
    ensures out == BodyLinks(body)
  {
    out := [];
    var inFenced := false;
    var ls := Lines(body);
    for i := 0 to |ls|
      invariant out + Collect(ls[i..], inFenced) == Collect(ls, false)
    {
      var line := ls[i];
      CollectStep(ls, i, inFenced);
      if IsFence(line) {
        inFenced := !inFenced;
        continue;
      }
      if inFenced {
        continue;
      }
      var stripped := StripInlineCode(line);
      var found := ScanLinks(stripped);
      Reassociate(out, found, Collect(ls[i + 1..], false), []);
      out := out + found;
    }
  }

  lemma CollectStep(ls: seq<string>, i: nat, inFenced: bool)
    requires i < |ls|
    ensures IsFence(ls[i]) ==> Collect(ls[i..], inFenced) == Collect(ls[i + 1..], !inFenced)
    ensures !IsFence(ls[i]) && inFenced ==> Collect(ls[i..], inFenced) == Collect(ls[i + 1..], true)
    ensures !IsFence(ls[i]) && !inFenced ==>
              Collect(ls[i..], inFenced) == Links(Strip(ls[i], false)) + Collect(ls[i + 1..], false)
  {
    assert ls[i..][0] == ls[i] && ls[i..][1..] == ls[i + 1..];
  }

  lemma Reassociate<T>(a: seq<T>, b: seq<T>, c: seq<T>, d: seq<T>)
    ensures a + b + c + d == a + (b + (c + d))
    ensures a + (b + c) == a + b + c
  {
  }

  function FenceAfter(ls: seq<string>, inFenced: bool): bool {
    if ls == [] then inFenced else FenceAfter(ls[1..], Toggled(ls[0], inFenced))
  }

  lemma {:induction false} CollectAppend(xs: seq<string>, ys: seq<string>, inFenced: bool)
    ensures Collect(xs + ys, inFenced) == Collect(xs, inFenced) + Collect(ys, FenceAfter(xs, inFenced))
  {
    if xs == [] {
      assert xs + ys == ys;
    } else {
      assert (xs + ys)[1..] == xs[1..] + ys;
      CollectAppend(xs[1..], ys, Toggled(xs[0], inFenced));
    }
  }

  lemma CollectCons(l: string, ys: seq<string>, inFenced: bool)
    ensures Collect([l] + ys, inFenced) == LineLinks(l, inFenced) + Collect(ys, Toggled(l, inFenced))
  {
    assert ([l] + ys)[1..] == ys;
  }

  lemma {:induction false} FencedSilent(ls: seq<string>, inFenced: bool)
    requires forall i :: 0 <= i < |ls| ==> !IsFence(ls[i])
    ensures FenceAfter(ls, inFenced) == inFenced
    ensures inFenced ==> Collect(ls, inFenced) == []
  {
    if ls != [] {
      FencedSilent(ls[1..], inFenced);
    }
  }

  lemma BlockSilent(open: string, code: seq<string>, close: string, rest: seq<string>)
    requires IsFence(open) && IsFence(close)
    requires forall i :: 0 <= i < |code| ==> !IsFence(code[i])
    ensures Collect([open] + (code + ([close] + rest)), false) == Collect(rest, false)
  {
    CollectCons(open, code + ([close] + rest), false);
    CollectAppend(code, [close] + rest, true);
    FencedSilent(code, true);
    CollectCons(close, rest, true);
  }

  /** Lines are fenced after an odd number of fences. */
  lemma {:induction false} FencesAreOdd(ls: seq<string>, inFenced: bool)
    ensures FenceAfter(ls, inFenced) <==> (Count(ls, l => IsFence(l)) % 2 == 1) != inFenced
  {
    if ls != [] {
      var n := |ls| - 1;
      FencesAreOdd(ls[..n], inFenced);
      FenceAfterAppend(ls[..n], [ls[n]], inFenced);
      assert ls == ls[..n] + [ls[n]];
      assert [ls[n]][1..] == [];
    }
  }

  lemma {:induction false} FenceAfterAppend(xs: seq<string>, ys: seq<string>, inFenced: bool)
    ensures FenceAfter(xs + ys, inFenced) == FenceAfter(ys, FenceAfter(xs, inFenced))
  {
    if xs == [] {
      assert xs + ys == ys;
    } else {
      assert (xs + ys)[1..] == xs[1..] + ys;
      FenceAfterAppend(xs[1..], ys, Toggled(xs[0], inFenced));
    }
  }

  /** A fence that is never closed silences the rest of the body. */
  lemma UnclosedFence(before: string, open: string, after: string)
    requires Terminated(before) && !FenceAfter(Lines(before), false)
    requires PlainLine(open) && IsFence(open)
    requires forall i :: 0 <= i < |Lines(after)| ==> !IsFence(Lines(after)[i])
    ensures BodyLinks(before + (open + "\n" + after)) == BodyLinks(before)
  {
    var rest := Lines(after);
    LinesAppend(before, open + "\n" + after);
    LinesCons(open, after);
    CollectAppend(Lines(before), [open] + rest, false);
    CollectCons(open, rest, false);
    FencedSilent(rest, true);
  }

  lemma BlockPlain(open: string, code: seq<string>, close: string)
    requires PlainLine(open) && PlainLine(close)
    requires forall i :: 0 <= i < |code| ==> PlainLine(code[i])
    ensures var block := [open] + code + [close];
            forall i :: 0 <= i < |block| ==> PlainLine(block[i])
  {
    var block := [open] + code + [close];
    forall i | 0 <= i < |block|
      ensures PlainLine(block[i])
    {
      if 0 < i < |block| - 1 {
        assert block[i] == code[i - 1];
      }
    }
  }

  /** A complete fenced block inserted between lines where no fence is open changes nothing,
      whatever it contains. */
  lemma FencedBlockIgnored(before: string, open: string, code: seq<string>, close: string, after: string)
    requires Terminated(before) && !FenceAfter(Lines(before), false)
    requires PlainLine(open) && IsFence(open) && PlainLine(close) && IsFence(close)
    requires forall i :: 0 <= i < |code| ==> PlainLine(code[i]) && !IsFence(code[i])
    ensures BodyLinks(before + (Unlines([open] + code + [close]) + after)) == BodyLinks(before + after)
  {
    var block, tail := [open] + code + [close], Lines(after);
    BlockPlain(open, code, close);
    LinesOfUnlines(block);
    UnlinesTerminated(block);
    LinesAppend(before, Unlines(block) + after);
    LinesAppend(Unlines(block), after);
    LinesAppend(before, after);
    CollectAppend(Lines(before), block + tail, false);
    CollectAppend(Lines(before), tail, false);
    Reassociate([open], code, [close], tail);
    BlockSilent(open, code, close, tail);
  }

  lemma {:induction false} UnlinesTerminated(ls: seq<string>)
    ensures Terminated(Unlines(ls))
  {
    if ls != [] {
      UnlinesTerminated(ls[1..]);
      var s, rest := Unlines(ls), Unlines(ls[1..]);
      assert s == ls[0] + "\n" + rest;
      if rest == "" {
        assert s[|s| - 1] == "\n"[0];
      } else {
        assert s[|s| - 1] == rest[|rest| - 1];
      }
    }
  }

  /** A complete inline span inserted where no span is open changes nothing, as long as neither
      form of the line opens or closes a fence. */
  lemma InlineSpanIgnored(before: string, u: string, code: string, v: string, after: string)
    requires Terminated(before)
    requires '`' !in code && !CodeAfter(u, false)
    requires var spanned := u + ("`" + code + "`" + v);
             PlainLine(u + v) && PlainLine(spanned) && !IsFence(u + v) && !IsFence(spanned)
    ensures BodyLinks(before + (u + ("`" + code + "`" + v) + "\n" + after)) ==
              BodyLinks(before + (u + v + "\n" + after))
  {
    var spanned, plain := u + ("`" + code + "`" + v), u + v;
    SpanVanishes(u, code, v);
    LinesAppend(before, spanned + "\n" + after);
    LinesAppend(before, plain + "\n" + after);
    LinesCons(spanned, after);
    LinesCons(plain, after);
    CollectAppend(Lines(before), [spanned] + Lines(after), false);
    CollectAppend(Lines(before), [plain] + Lines(after), false);
    var open := FenceAfter(Lines(before), false);
    CollectCons(spanned, Lines(after), open);
    CollectCons(plain, Lines(after), open);
  }

  function ShowLines(doc: seq<LinkLine>): seq<string> {
    if doc == [] then [] else [ShowSegments(doc[0].segments, doc[0].tail)] + ShowLines(doc[1..])
  }

  function AllSlugs(doc: seq<LinkLine>): seq<string> {
    if doc == [] then [] else Slugs(doc[0].segments) + AllSlugs(doc[1..])
  }

  lemma ShownLine(l: LinkLine)
    requires GoodLine(l)
    ensures var s := ShowSegments(l.segments, l.tail);
            PlainLine(s) && LineLinks(s, false) == Slugs(l.segments) && !Toggled(s, false)
  {
    var s := ShowSegments(l.segments, l.tail);
    ShownInline(l.segments, l.tail);
    LinksOfSegments(l.segments, l.tail);
    StripPlain(s, false);
    NoTickNoFence(s);
  }

  lemma {:induction false} CollectShown(doc: seq<LinkLine>)
    requires forall l :: l in doc ==> GoodLine(l)
    ensures Collect(ShowLines(doc), false) == AllSlugs(doc)
    ensures forall i :: 0 <= i < |ShowLines(doc)| ==> PlainLine(ShowLines(doc)[i])
  {
    if doc != [] {
      assert doc[0] in doc;
      ShownLine(doc[0]);
      CollectShown(doc[1..]);
      CollectCons(ShowSegments(doc[0].segments, doc[0].tail), ShowLines(doc[1..]), false);
    }
  }

  lemma NoTickNoFence(s: string)
    requires '`' !in s
    ensures !IsFence(s)
  {
    var t := TrimStart(s, SPACES);
    if |t| >= 3 {
      assert t[0] in s;
    }
  }

  /** Extraction undoes printing: link lines give back exactly their slugs, in order. */
  lemma ExtractRecovers(doc: seq<LinkLine>)
    requires forall l :: l in doc ==> GoodLine(l)
    ensures BodyLinks(Unlines(ShowLines(doc))) == AllSlugs(doc)
  {
    CollectShown(doc);
    LinesOfUnlines(ShowLines(doc));
  }

  lemma CutBefore(s: string, p: string)
    ensures Cut(s, p).Some? && p != "" ==> !Contains(Cut(s, p).value.0, p)
  {
    FindFirst(s, p);
    if Cut(s, p).Some? {
      var x := Cut(s, p).value.0;
      FindFirst(x, p);
      if p != "" && Contains(x, p) {
        var j := Find(x, p).value;
        assert x[j..] <= s[j..];
        assert OccursAt(s, p, j);
      }
    }
  }

  lemma TrimStaysInside(inner: string, p: string)
    requires !Contains(inner, p)
    ensures !Contains(Trim(inner, SPACES), p)
  {
    var slug, k := Trim(inner, SPACES), Lead(inner, SPACES);
    FindFirst(slug, p);
    FindFirst(inner, p);
    if Contains(slug, p) {
      var j := Find(slug, p).value;
      assert slug <= inner[k..];
      assert slug[j..] <= inner[k + j..];
      assert OccursAt(inner, p, k + j);
    }
  }

  /** Every reported slug is a trimmed, non-empty text free of the closing brackets. */
  lemma {:induction false} LinksWellFormed(rest: string)
    ensures forall slug :: slug in Links(rest) ==> slug != "" && Bare(slug, SPACES) && !Contains(slug, CLOSE)
    decreases |rest|
  {
    match Cut(rest, OPEN)
    case None =>
    case Some((_, after)) =>
      match Cut(after, CLOSE)
      case None =>
      case Some((inner, later)) =>
        LinksWellFormed(later);
        TrimIsBare(inner, SPACES);
        CutBefore(after, CLOSE);
        TrimStaysInside(inner, CLOSE);
  }
}
