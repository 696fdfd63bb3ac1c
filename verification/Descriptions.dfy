/** Normalised descriptions (src/audit.rs), the keys of duplicate detection. Text is ASCII. */
module Descriptions {
  import opened Wrappers
  import opened Text

  function Lower(c: char): char {
    if 'A' <= c <= 'Z' then (c as int + 32) as char else c
  }

  predicate IsAlphanumeric(c: char) {
    '0' <= c <= '9' || 'a' <= c <= 'z' || 'A' <= c <= 'Z'
  }

  predicate Keeps(c: char) {
    IsAlphanumeric(c) || c in SPACES
  }

  function ToLowercase(s: string): string {
    if s == "" then "" else [Lower(s[0])] + ToLowercase(s[1..])
  }

  function Filtered(s: string): string {
    if s == "" then "" else (if Keeps(s[0]) then [s[0]] else "") + Filtered(s[1..])
  }

  function NormalizeDesc(s: string): string {
    Join(Words(Filtered(ToLowercase(s))), " ")
  }

  /** Lower case, letter by letter. */
  lemma {:induction false} ToLowercaseAt(s: string, i: nat)
    requires i < |s|
    ensures |ToLowercase(s)| == |s|
    ensures 'A' <= s[i] <= 'Z' ==> ToLowercase(s)[i] == 'a' + (s[i] - 'A')
    ensures !('A' <= s[i] <= 'Z') ==> ToLowercase(s)[i] == s[i]
  {
    if |s| > 1 {
      ToLowercaseAt(s[1..], if i == 0 then 0 else i - 1);
    }
  }

  // ----- The word list of a description -----

  /** A single word in lower case without its punctuation. */
  function Bared(w: string): string {
    if w == "" then ""
    else BaredChar(w[0]) + Bared(w[1..])
  }

  function BaredChar(c: char): string {
    if '0' <= c <= '9' || 'a' <= c <= 'z' then [c]
    else if 'A' <= c <= 'Z' then ['a' + (c - 'A')]
    else ""
  }

  /** The words of a description, each bared, those of punctuation alone dropped. */
  function BaredWords(ws: seq<string>): seq<string> {
    if ws == [] then [] else Flush(Bared(ws[0])) + BaredWords(ws[1..])
  }

  lemma {:induction false} BaredAppend(w: string, c: char)
    ensures Bared(w + [c]) == Bared(w) + BaredChar(c)
  {
    var s := w + [c];
    if w == "" {
      assert s == [c] && s[1..] == "";
      assert Bared(s) == BaredChar(c) + "";
    } else {
      var tail := w[1..];
      assert s[0] == w[0] && s[1..] == tail + [c];
      BaredAppend(tail, c);
      assert Bared(s) == BaredChar(w[0]) + (Bared(tail) + BaredChar(c));
    }
  }

  lemma LowerKeeps(c: char)
    ensures Keeps(Lower(c)) <==> Keeps(c)
    ensures IsAlphanumeric(Lower(c)) <==> IsAlphanumeric(c)
    ensures c in SPACES <==> Lower(c) in SPACES
    ensures c in SPACES ==> Lower(c) == c
    ensures Lower(Lower(c)) == Lower(c)
  {
  }

  lemma FilterHead(s: string)
    requires s != ""
    ensures Filtered(ToLowercase(s)) ==
              (if Keeps(s[0]) then [Lower(s[0])] else "") + Filtered(ToLowercase(s[1..]))
  {
    LowerKeeps(s[0]);
    assert ToLowercase(s)[1..] == ToLowercase(s[1..]);
  }

  lemma WordsHead(c: char, rest: string, cur: string)
    ensures c in SPACES ==> WordsFrom([c] + rest, cur) == Flush(cur) + WordsFrom(rest, "")
    ensures c !in SPACES ==> WordsFrom([c] + rest, cur) == WordsFrom(rest, cur + [c])
  {
    assert ([c] + rest)[1..] == rest;
  }

  lemma BaredFlush(cur: string, ws: seq<string>)
    ensures BaredWords(Flush(cur) + ws) == Flush(Bared(cur)) + BaredWords(ws)
  {
    if cur == "" {
      assert Flush(cur) + ws == ws && Flush(Bared(cur)) == [];
    } else {
      assert (Flush(cur) + ws)[1..] == ws;
    }
  }

  /** Removing punctuation and then splitting gives the same words as splitting first. */
  lemma {:induction false} FilterThenSplit(s: string, cur: string)
    requires NoneIn(cur, SPACES)
    ensures WordsFrom(Filtered(ToLowercase(s)), Bared(cur)) == BaredWords(WordsFrom(s, cur))
  {
    if s == "" {
      BaredFlush(cur, []);
      assert Flush(cur) + [] == Flush(cur) && Flush(Bared(cur)) + [] == Flush(Bared(cur));
    } else {
      var c, rest := s[0], Filtered(ToLowercase(s[1..]));
      FilterHead(s);
      LowerKeeps(c);
      WordsHead(Lower(c), rest, Bared(cur));
      BaredAppend(cur, c);
      if c in SPACES {
        FilterThenSplit(s[1..], "");
        BaredFlush(cur, WordsFrom(s[1..], ""));
      } else {
        FilterThenSplit(s[1..], cur + [c]);
        if !IsAlphanumeric(c) {
          assert "" + rest == rest && Bared(cur) + "" == Bared(cur);
        }
      }
    }
  }

  lemma {:induction false} BaredWord(w: string)
    ensures forall i :: 0 <= i < |Bared(w)| ==> Canonical(Bared(w)[i])
  {
    if w != "" {
      BaredWord(w[1..]);
      LowerKeeps(w[0]);
    }
  }

  predicate Canonical(c: char) {
    '0' <= c <= '9' || 'a' <= c <= 'z'
  }

  predicate CanonicalWord(w: string) {
    w != "" && forall i :: 0 <= i < |w| ==> Canonical(w[i])
  }

  lemma CanonicalIsWord(w: string)
    requires CanonicalWord(w)
    ensures IsWord(w)
  {
  }

  lemma {:induction false} BaredWordsCanonical(ws: seq<string>)
    ensures forall i :: 0 <= i < |BaredWords(ws)| ==> CanonicalWord(BaredWords(ws)[i])
  {
    if ws != [] {
      BaredWord(ws[0]);
      BaredWordsCanonical(ws[1..]);
    }
  }

  /** The normal form is the bared word list joined by single spaces. */
  lemma NormalForm(s: string)
    ensures NormalizeDesc(s) == Join(BaredWords(Words(s)), " ")
    ensures Words(NormalizeDesc(s)) == BaredWords(Words(s))
  {
    FilterThenSplit(s, "");
    var ws := BaredWords(Words(s));
    BaredWordsCanonical(Words(s));
    forall i | 0 <= i < |ws|
      ensures IsWord(ws[i])
    {
      CanonicalIsWord(ws[i]);
    }
    WordsOfJoin(ws);
  }

  /** Two descriptions share a key exactly when their bared word lists are equal. */
  lemma SameKey(a: string, b: string)
    ensures NormalizeDesc(a) == NormalizeDesc(b) <==> BaredWords(Words(a)) == BaredWords(Words(b))
  {
    NormalForm(a);
    NormalForm(b);
  }

  lemma {:induction false} BaredCanonical(w: string)
    requires forall i :: 0 <= i < |w| ==> Canonical(w[i])
    ensures Bared(w) == w
  {
    if w != "" {
      BaredCanonical(w[1..]);
    }
  }

  lemma {:induction false} BaredFixed(ws: seq<string>)
    requires forall i :: 0 <= i < |ws| ==> CanonicalWord(ws[i])
    ensures BaredWords(ws) == ws
  {
    if ws != [] {
      BaredCanonical(ws[0]);
      BaredFixed(ws[1..]);
    }
  }

  lemma Idempotent(s: string)
    ensures NormalizeDesc(NormalizeDesc(s)) == NormalizeDesc(s)
  {
    NormalForm(s);
    NormalForm(NormalizeDesc(s));
    BaredWordsCanonical(Words(s));
    BaredFixed(BaredWords(Words(s)));
  }

  /** Lower-case letters and digits only, with single spaces strictly inside. */
  predicate SingleSpaced(t: string) {
    && (forall i :: 0 <= i < |t| ==> Canonical(t[i]) || t[i] == ' ')
    && (forall i :: 0 < i < |t| && t[i] == ' ' ==> t[i - 1] != ' ')
    && (t != "" ==> t[0] != ' ' && t[|t| - 1] != ' ')
  }

  lemma {:induction false} JoinSingleSpaced(ws: seq<string>)
    requires forall i :: 0 <= i < |ws| ==> CanonicalWord(ws[i])
    ensures SingleSpaced(Join(ws, " ")) && (ws != [] ==> Join(ws, " ") != "")
  {
    if |ws| > 1 {
      var rest := Join(ws[1..], " ");
      JoinSingleSpaced(ws[1..]);
      var t := ws[0] + " " + rest;
      assert forall i :: 0 <= i < |ws[0]| ==> t[i] == ws[0][i];
      assert forall i :: |ws[0]| < i < |t| ==> t[i] == rest[i - |ws[0]| - 1];
    }
  }

  lemma NormalizedIsSingleSpaced(s: string)
    ensures SingleSpaced(NormalizeDesc(s))
  {
    NormalForm(s);
    BaredWordsCanonical(Words(s));
    JoinSingleSpaced(BaredWords(Words(s)));
  }
}
