/** Character sequences as the daemon handles them: first-occurrence search, trimming, line and
    word splitting. A line ends at a newline; a carriage return right before it is dropped. */
module Text {
  import opened Wrappers

  const SPACES: set<char> := {' ', '\t', '\n', '\U{0B}', '\U{0C}', '\r'}

  predicate EndsWith(s: string, p: string) {
    |p| <= |s| && s[|s| - |p|..] == p
  }

  predicate AllIn(s: string, cs: set<char>) {
    forall i :: 0 <= i < |s| ==> s[i] in cs
  }

  predicate NoneIn(s: string, cs: set<char>) {
    forall i :: 0 <= i < |s| ==> s[i] !in cs
  }

  function StripPrefix(s: string, p: string): Option<string> {
    if p <= s then Some(s[|p|..]) else None
  }

  lemma EndsWithIff(s: string, p: string)
    ensures EndsWith(s, p) <==> exists x :: s == x + p
  {
    if EndsWith(s, p) {
      assert s == s[..|s| - |p|] + p;
    }
  }

  lemma StripPrefixOf(p: string, rest: string)
    ensures StripPrefix(p + rest, p) == Some(rest)
  {
    assert (p + rest)[..|p|] == p;
  }

  lemma NoPrefix(s: string, p: string)
    requires s != "" && p != "" && s[0] != p[0]
    ensures StripPrefix(s, p) == None
  {
  }

  // ----- Search -----

  predicate OccursAt(s: string, p: string, i: nat) {
    i <= |s| && p <= s[i..]
  }

  /** The index of the first occurrence of p in s. */
  function Find(s: string, p: string): (r: Option<nat>)
    ensures r.Some? ==> r.value + |p| <= |s|
  {
    if p <= s then Some(0)
    else if s == "" then None
    else
      match Find(s[1..], p)
      case None => None
      case Some(i) => Some(i + 1)
  }

  predicate Contains(s: string, p: string) {
    Find(s, p).Some?
  }

  lemma OccursLater(s: string, p: string, i: nat)
    requires 0 < i && s != ""
    ensures OccursAt(s, p, i) <==> OccursAt(s[1..], p, i - 1)
  {
    if i <= |s| {
      assert s[1..][i - 1..] == s[i..];
    }
  }

  lemma {:induction false} FindFirst(s: string, p: string)
    ensures Find(s, p).Some? ==> OccursAt(s, p, Find(s, p).value)
    ensures forall i: nat :: OccursAt(s, p, i) ==> Find(s, p).Some? && Find(s, p).value <= i
  {
    assert s[0..] == s;
    if !(p <= s) && s != "" {
      FindFirst(s[1..], p);
      forall i: nat | OccursAt(s, p, i)
        ensures Find(s, p).Some? && Find(s, p).value <= i
      {
        assert i != 0;
        OccursLater(s, p, i);
      }
      if Find(s, p).Some? {
        OccursLater(s, p, Find(s, p).value);
      }
    }
  }

  ghost predicate Occurs(s: string, p: string) {
    exists i: nat :: OccursAt(s, p, i)
  }

  lemma ContainsIff(s: string, p: string)
    ensures Contains(s, p) <==> Occurs(s, p)
  {
    FindFirst(s, p);
  }

  ghost predicate FirstAt(s: string, p: string, i: nat) {
    OccursAt(s, p, i) && forall j: nat :: j < i ==> !OccursAt(s, p, j)
  }

  /** The only index that can be a first occurrence. */
  lemma FindIs(s: string, p: string, i: nat)
    requires FirstAt(s, p, i)
    ensures Find(s, p) == Some(i)
  {
    FindFirst(s, p);
  }

  /** The parts of s before and after the first occurrence of p. */
  function Cut(s: string, p: string): (r: Option<(string, string)>)
    ensures r.Some? ==> |r.value.0| + |p| + |r.value.1| == |s|
  {
    match Find(s, p)
    case None => None
    case Some(i) => Some((s[..i], s[i + |p|..]))
  }

  lemma CutAt(s: string, p: string, i: nat)
    ensures FirstAt(s, p, i) ==> i + |p| <= |s| && Cut(s, p) == Some((s[..i], s[i + |p|..]))
    ensures !Occurs(s, p) ==> Cut(s, p) == None
  {
    ContainsIff(s, p);
    if FirstAt(s, p, i) {
      FindIs(s, p, i);
    }
  }

  // ----- Trimming -----

  function Lead(s: string, cs: set<char>): (k: nat)
    ensures k <= |s| && AllIn(s[..k], cs)
    ensures k < |s| ==> s[k] !in cs
  {
    if s == "" || s[0] !in cs then 0
    else
      var k := Lead(s[1..], cs);
      assert s[..k + 1] == [s[0]] + s[1..][..k];
      k + 1
  }

  function Trail(s: string, cs: set<char>): (k: nat)
    ensures k <= |s| && AllIn(s[|s| - k..], cs)
    ensures k < |s| ==> s[|s| - k - 1] !in cs
  {
    if s == "" || s[|s| - 1] !in cs then 0
    else
      var t := s[..|s| - 1];
      var k := Trail(t, cs);
      assert s[|s| - (k + 1)..] == t[|t| - k..] + [s[|s| - 1]];
      k + 1
  }

  function TrimStart(s: string, cs: set<char>): string {
    s[Lead(s, cs)..]
  }

  function TrimEnd(s: string, cs: set<char>): string {
    s[..|s| - Trail(s, cs)]
  }

  function Trim(s: string, cs: set<char>): string {
    TrimEnd(TrimStart(s, cs), cs)
  }

  /** A text that trimming by cs leaves alone. */
  predicate Bare(v: string, cs: set<char>) {
    v != "" ==> v[0] !in cs && v[|v| - 1] !in cs
  }

  lemma {:induction false} TrimStartSkips(a: string, v: string, cs: set<char>)
    requires AllIn(a, cs)
    ensures TrimStart(a + v, cs) == TrimStart(v, cs)
  {
    if a == "" {
      assert a + v == v;
    } else {
      assert (a + v)[1..] == a[1..] + v;
      TrimStartSkips(a[1..], v, cs);
    }
  }

  lemma {:induction false} TrimEndSkips(v: string, b: string, cs: set<char>)
    requires AllIn(b, cs)
    ensures TrimEnd(v + b, cs) == TrimEnd(v, cs)
  {
    if b == "" {
      assert v + b == v;
    } else {
      assert (v + b)[..|v + b| - 1] == v + b[..|b| - 1];
      TrimEndSkips(v, b[..|b| - 1], cs);
    }
  }

  /** Trimming undoes padding. */
  lemma TrimPadded(a: string, v: string, b: string, cs: set<char>)
    requires AllIn(a, cs) && AllIn(b, cs) && Bare(v, cs)
    ensures Trim(a + v + b, cs) == v
  {
    var rest := v + b;
    assert a + v + b == a + rest;
    TrimStartSkips(a, rest, cs);
    if v == "" {
      assert rest == b + "";
      TrimStartSkips(b, "", cs);
    } else {
      assert rest[0] == v[0];
      assert Lead(rest, cs) == 0;
      TrimEndSkips(v, b, cs);
      assert Trail(v, cs) == 0;
    }
  }

  /** What trimming takes off. */
  lemma TrimSplits(s: string, cs: set<char>) returns (a: string, d: string)
    ensures AllIn(a, cs) && AllIn(d, cs) && s == a + Trim(s, cs) + d
  {
    var rest := TrimStart(s, cs);
    a, d := s[..Lead(s, cs)], rest[|rest| - Trail(rest, cs)..];
  }

  lemma TrimSkipsEnd(v: string, b: string, cs: set<char>)
    requires AllIn(b, cs)
    ensures Trim(v + b, cs) == Trim(v, cs)
  {
    var a, d := TrimSplits(v, cs);
    TrimIsBare(v, cs);
    assert v + b == a + Trim(v, cs) + (d + b);
    TrimPadded(a, Trim(v, cs), d + b, cs);
  }

  lemma BareStays(v: string, cs: set<char>)
    requires Bare(v, cs)
    ensures TrimStart(v, cs) == v && TrimEnd(v, cs) == v && Trim(v, cs) == v
  {
    assert Lead(v, cs) == 0 && Trail(v, cs) == 0;
  }

  lemma TrimIsBare(s: string, cs: set<char>)
    ensures Bare(Trim(s, cs), cs)
  {
  }

  // ----- Lines -----

  function ChopCr(s: string): string {
    if s != "" && s[|s| - 1] == '\r' then s[..|s| - 1] else s
  }

  function LinesFrom(s: string, cur: string): seq<string> {
    if s == "" then (if cur == "" then [] else [cur])
    else if s[0] == '\n' then [ChopCr(cur)] + LinesFrom(s[1..], "")
    else LinesFrom(s[1..], cur + [s[0]])
  }

  function Lines(s: string): seq<string> {
    LinesFrom(s, "")
  }

  function Unlines(ls: seq<string>): string {
    if ls == [] then "" else ls[0] + "\n" + Unlines(ls[1..])
  }

  function Join(ls: seq<string>, sep: string): string {
    if |ls| == 0 then ""
    else if |ls| == 1 then ls[0]
    else ls[0] + sep + Join(ls[1..], sep)
  }

  /** A text that line splitting gives back unchanged. */
  predicate PlainLine(l: string) {
    '\n' !in l && (l != "" ==> l[|l| - 1] != '\r')
  }

  predicate Terminated(s: string) {
    s == "" || s[|s| - 1] == '\n'
  }

  lemma {:induction false} LinesCut(s: string, t: string, cur: string)
    requires s != "" && Terminated(s)
    ensures LinesFrom(s + t, cur) == LinesFrom(s, cur) + LinesFrom(t, "")
  {
    assert (s + t)[1..] == s[1..] + t;
    if |s| == 1 {
      assert s[1..] + t == t;
    } else if s[0] == '\n' {
      LinesCut(s[1..], t, "");
    } else {
      LinesCut(s[1..], t, cur + [s[0]]);
    }
  }

  lemma LinesAppend(a: string, b: string)
    requires Terminated(a)
    ensures Lines(a + b) == Lines(a) + Lines(b)
  {
    if a == "" {
      assert a + b == b;
    } else {
      LinesCut(a, b, "");
    }
  }

  lemma {:induction false} LineGrows(l: string, cur: string)
    requires '\n' !in l
    ensures LinesFrom(l + "\n", cur) == [ChopCr(cur + l)]
    ensures LinesFrom(l, cur) == if cur + l == "" then [] else [cur + l]
  {
    if l == "" {
      assert cur + l == cur && l + "\n" == "\n";
      assert "\n"[1..] == "";
    } else {
      assert (l + "\n")[1..] == l[1..] + "\n";
      assert cur + l == cur + [l[0]] + l[1..];
      LineGrows(l[1..], cur + [l[0]]);
    }
  }

  lemma LinesCons(l: string, rest: string)
    requires '\n' !in l
    ensures Lines(l + "\n" + rest) == [ChopCr(l)] + Lines(rest)
  {
    LineGrows(l, "");
    assert "" + l == l;
    LinesCut(l + "\n", rest, "");
  }

  /** One carriage return right before the newline goes with it; any other stays. */
  lemma CrlfLine(l: string, rest: string)
    requires '\n' !in l
    ensures Lines(l + "\r" + "\n" + rest) == [l] + Lines(rest)
    ensures PlainLine(l) ==> Lines(l + "\n" + rest) == [l] + Lines(rest)
  {
    LinesCons(l + "\r", rest);
    LinesCons(l, rest);
    assert (l + "\r")[..|l|] == l;
  }

  lemma {:induction false} LinesOfUnlines(ls: seq<string>)
    requires forall i :: 0 <= i < |ls| ==> PlainLine(ls[i])
    ensures Lines(Unlines(ls)) == ls
  {
    if ls != [] {
      LinesCons(ls[0], Unlines(ls[1..]));
      LinesOfUnlines(ls[1..]);
    }
  }

  lemma {:induction false} UnlinesOfLinesFrom(s: string, cur: string)
    requires s != "" && Terminated(s) && '\r' !in s && '\r' !in cur
    ensures Unlines(LinesFrom(s, cur)) == cur + s
  {
    if s[0] == '\n' {
      if |s| == 1 {
        assert s == "\n" && LinesFrom(s, cur) == [cur];
        assert [cur][1..] == [];
        assert cur + "\n" + "" == cur + s;
      } else {
        UnlinesOfLinesFrom(s[1..], "");
        assert LinesFrom(s, cur)[1..] == LinesFrom(s[1..], "");
        assert cur + "\n" + ("" + s[1..]) == cur + s;
      }
    } else {
      UnlinesOfLinesFrom(s[1..], cur + [s[0]]);
      assert cur + [s[0]] + s[1..] == cur + s;
    }
  }

  /** Splitting and joining are inverse on newline-terminated text free of carriage returns. */
  lemma UnlinesOfLines(s: string)
    requires Terminated(s) && '\r' !in s
    ensures Unlines(Lines(s)) == s
  {
    if s != "" {
      UnlinesOfLinesFrom(s, "");
    }
  }

  /** Joining with newlines and closing with one is the terminated form. */
  lemma {:induction false} JoinTerminated(ls: seq<string>)
    requires ls != []
    ensures Join(ls, "\n") + "\n" == Unlines(ls)
  {
    if |ls| == 1 {
      assert Unlines(ls[1..]) == "";
      assert ls[0] + "\n" + "" == ls[0] + "\n";
    } else {
      JoinTerminated(ls[1..]);
      assert Join(ls, "\n") + "\n" == ls[0] + "\n" + (Join(ls[1..], "\n") + "\n");
    }
  }

  lemma {:induction false} LinesOfJoin(ls: seq<string>)
    requires forall i :: 0 <= i < |ls| ==> PlainLine(ls[i])
    requires ls != [] ==> ls[|ls| - 1] != ""
    ensures Lines(Join(ls, "\n")) == ls
  {
    if |ls| == 1 {
      LineGrows(ls[0], "");
      assert "" + ls[0] == ls[0];
    } else if |ls| > 1 {
      LinesCons(ls[0], Join(ls[1..], "\n"));
      LinesOfJoin(ls[1..]);
    }
  }

  lemma {:induction false} LinesLackNewlines(s: string, cur: string)
    requires '\n' !in cur
    ensures forall i :: 0 <= i < |LinesFrom(s, cur)| ==> '\n' !in LinesFrom(s, cur)[i]
  {
    if s != "" {
      if s[0] == '\n' {
        LinesLackNewlines(s[1..], "");
      } else {
        LinesLackNewlines(s[1..], cur + [s[0]]);
      }
    }
  }

  /** What follows the last newline. */
  function LastLine(s: string): string {
    if s == "" || s[|s| - 1] == '\n' then "" else LastLine(s[..|s| - 1]) + [s[|s| - 1]]
  }

  /** Everything up to the last newline, it included. */
  function WholeLines(s: string): string {
    if s == "" || s[|s| - 1] == '\n' then s else WholeLines(s[..|s| - 1])
  }

  lemma {:induction false} LastLineSplits(s: string)
    ensures s == WholeLines(s) + LastLine(s) && Terminated(WholeLines(s)) && '\n' !in LastLine(s)
    ensures LastLine(s) == "" <==> Terminated(s)
  {
    if s == "" || s[|s| - 1] == '\n' {
      assert s + "" == s;
    } else {
      var t := s[..|s| - 1];
      LastLineSplits(t);
      assert s == t + [s[|s| - 1]];
      assert WholeLines(t) + (LastLine(t) + [s[|s| - 1]]) == WholeLines(t) + LastLine(t) + [s[|s| - 1]];
    }
  }

  lemma {:induction false} LastLineOf(whole: string, torn: string)
    requires Terminated(whole) && '\n' !in torn
    ensures LastLine(whole + torn) == torn && WholeLines(whole + torn) == whole
  {
    if torn == "" {
      assert whole + torn == whole;
    } else {
      var n := |torn| - 1;
      LastLineOf(whole, torn[..n]);
      assert (whole + torn)[..|whole + torn| - 1] == whole + torn[..n];
      assert torn == torn[..n] + [torn[n]];
    }
  }

  // ----- Words -----

  predicate IsWord(w: string) {
    w != "" && NoneIn(w, SPACES)
  }

  function Flush(cur: string): seq<string> {
    if cur == "" then [] else [cur]
  }

  function WordsFrom(s: string, cur: string): seq<string> {
    if s == "" then Flush(cur)
    else if s[0] in SPACES then Flush(cur) + WordsFrom(s[1..], "")
    else WordsFrom(s[1..], cur + [s[0]])
  }

  /** The whitespace-separated words of s. */
  function Words(s: string): seq<string> {
    WordsFrom(s, "")
  }

  lemma {:induction false} WordsAt(s: string, c: char, t: string, cur: string)
    requires c in SPACES
    ensures WordsFrom(s + [c] + t, cur) == WordsFrom(s, cur) + WordsFrom(t, "")
  {
    var u := s + [c] + t;
    if s == "" {
      assert u[1..] == t;
    } else {
      assert u[1..] == s[1..] + [c] + t;
      if s[0] in SPACES {
        WordsAt(s[1..], c, t, "");
      } else {
        WordsAt(s[1..], c, t, cur + [s[0]]);
      }
    }
  }

  lemma {:induction false} WordGrows(w: string, cur: string)
    requires NoneIn(w, SPACES)
    ensures WordsFrom(w, cur) == Flush(cur + w)
  {
    if w == "" {
      assert cur + w == cur;
    } else {
      assert cur + w == cur + [w[0]] + w[1..];
      WordGrows(w[1..], cur + [w[0]]);
    }
  }

  /** Splitting at whitespace undoes joining words with single spaces. */
  lemma {:induction false} WordsOfJoin(ws: seq<string>)
    requires forall i :: 0 <= i < |ws| ==> IsWord(ws[i])
    ensures Words(Join(ws, " ")) == ws
  {
    if |ws| == 1 {
      WordGrows(ws[0], "");
      assert "" + ws[0] == ws[0];
    } else if |ws| > 1 {
      WordGrows(ws[0], "");
      assert "" + ws[0] == ws[0];
      WordsAt(ws[0], ' ', Join(ws[1..], " "), "");
      WordsOfJoin(ws[1..]);
    }
  }

  lemma {:induction false} WordsAreWords(s: string, cur: string)
    requires NoneIn(cur, SPACES)
    ensures forall i :: 0 <= i < |WordsFrom(s, cur)| ==> IsWord(WordsFrom(s, cur)[i])
  {
    if s != "" {
      if s[0] in SPACES {
        WordsAreWords(s[1..], "");
      } else {
        WordsAreWords(s[1..], cur + [s[0]]);
      }
    }
  }

  /** Leading padding does not count. */
  lemma {:induction false} WordsSkip(a: string, s: string)
    requires AllIn(a, SPACES)
    ensures Words(a + s) == Words(s)
  {
    if a == "" {
      assert a + s == s;
    } else {
      assert (a + s)[1..] == a[1..] + s;
      WordsSkip(a[1..], s);
    }
  }

  lemma {:induction false} WordsPadded(s: string, b: string, cur: string)
    requires AllIn(b, SPACES)
    ensures WordsFrom(s + b, cur) == WordsFrom(s, cur)
    decreases |b|
  {
    if b == "" {
      assert s + b == s;
    } else {
      assert s + b == s + [b[0]] + b[1..];
      WordsAt(s, b[0], b[1..], cur);
      WordsPadded("", b[1..], "");
      assert "" + b[1..] == b[1..];
    }
  }

  lemma WordsOfTrimEnd(t: string)
    ensures Words(TrimEnd(t, SPACES)) == Words(t)
  {
    var j := |t| - Trail(t, SPACES);
    assert t == t[..j] + t[j..];
    WordsPadded(t[..j], t[j..], "");
  }

  lemma WordsOfTrim(s: string)
    ensures Words(Trim(s, SPACES)) == Words(s)
  {
    var k := Lead(s, SPACES);
    assert s == s[..k] + s[k..];
    WordsSkip(s[..k], s[k..]);
    WordsOfTrimEnd(s[k..]);
  }

  lemma WordsApart(x: string, gap: string, y: string)
    requires gap != "" && AllIn(gap, SPACES)
    ensures Words(x + gap + y) == Words(x) + Words(y)
  {
    assert x + gap + y == x + [gap[0]] + (gap[1..] + y);
    WordsAt(x, gap[0], gap[1..] + y, "");
    WordsSkip(gap[1..], y);
  }
}
