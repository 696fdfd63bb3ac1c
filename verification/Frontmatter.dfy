/** Frontmatter of a memory file (src/audit.rs): splitting it off, and the naive scan that reads
    the name, the description and the declared type out of it. */
module Frontmatter {
  import opened Wrappers
  import opened Text
  import opened Lists

  const OPENING: string := "---\n"
  const DELIMITER: string := "\n---\n"
  const QUOTES: set<char> := {'"', '\''}

  function SplitFrontmatter(content: string): Option<(string, string)> {
    if OPENING <= content then
      var s := content[|OPENING|..];
      match Find(s, DELIMITER)
      case None => None
      case Some(end) => Some((s[..end], s[end + |DELIMITER|..]))
    else
      None
  }

  /** The delimiter cannot start inside fm or on its last newline-and-dashes. */
  predicate Separable(fm: string) {
    !Contains(fm, DELIMITER) && !EndsWith(fm, "\n---")
  }

  lemma PartsRejoin(content: string, opening: string, delimiter: string, i: nat)
    requires opening <= content && OccursAt(content[|opening|..], delimiter, i)
    ensures var s := content[|opening|..];
      content == opening + s[..i] + delimiter + s[i + |delimiter|..]
  {
    var s := content[|opening|..];
    assert content == opening + s;
    assert s == s[..i] + s[i..];
    assert s[i..] == delimiter + s[i + |delimiter|..];
  }

  lemma SplitParts(content: string)
    requires SplitFrontmatter(content).Some?
    ensures var (fm, body) := SplitFrontmatter(content).value; content == OPENING + fm + DELIMITER + body
  {
    var s := content[|OPENING|..];
    FindFirst(s, DELIMITER);
    PartsRejoin(content, OPENING, DELIMITER, Find(s, DELIMITER).value);
  }

  /** On success the two parts are the input, split at the earliest place possible; it fails only
      where there is none. */
  lemma SplitReconstructs(content: string)
    ensures SplitFrontmatter(content).Some? ==>
              var (fm, body) := SplitFrontmatter(content).value;
              content == OPENING + fm + DELIMITER + body && Separable(fm)
    ensures SplitFrontmatter(content).None? ==>
              !(OPENING <= content) || !Contains(content[|OPENING|..], DELIMITER)
  {
    if SplitFrontmatter(content).Some? {
      SplitParts(content);
      var (fm, body) := SplitFrontmatter(content).value;
      SplitRecovers(fm, body);
    }
  }

  lemma SplitAt(fm: string, body: string)
    ensures var s := fm + DELIMITER + body;
            && (OPENING + fm + DELIMITER + body)[|OPENING|..] == s
            && s[..|fm|] == fm && s[|fm| + |DELIMITER|..] == body
            && OccursAt(s, DELIMITER, |fm|)
  {
    var s := fm + DELIMITER + body;
    assert s[|fm|..] == DELIMITER + body;
  }

  lemma NotEarlier(fm: string, body: string, j: nat)
    requires j < |fm| && Separable(fm)
    ensures !OccursAt(fm + DELIMITER + body, DELIMITER, j)
  {
    var s := fm + DELIMITER + body;
    var k := |fm| - j;
    FindFirst(fm, DELIMITER);
    assert s[j..] == fm[j..] + DELIMITER + body;
    if |DELIMITER| <= k {
      assert s[j..][..|DELIMITER|] == fm[j..][..|DELIMITER|];
      assert !OccursAt(fm, DELIMITER, j);
    } else if k == 4 {
      assert s[j..][..4] == fm[j..];
    } else {
      assert s[j..][k] == '\n';
    }
  }

  lemma Earlier(fm: string, body: string) returns (j: nat)
    requires !Separable(fm)
    ensures j < |fm| && OccursAt(fm + DELIMITER + body, DELIMITER, j)
  {
    var s := fm + DELIMITER + body;
    FindFirst(fm, DELIMITER);
    if Contains(fm, DELIMITER) {
      j := Find(fm, DELIMITER).value;
      assert s[j..] == fm[j..] + (DELIMITER + body);
      assert s[j..][..|DELIMITER|] == fm[j..][..|DELIMITER|];
    } else {
      j := |fm| - 4;
      assert s[j..] == "\n---" + (DELIMITER + body);
    }
  }

  /** Splitting undoes printing exactly when the delimiter does not occur earlier; it overlaps
      itself by its newline, so a block ending in a newline and three dashes is ruled out too. */
  lemma SplitRecovers(fm: string, body: string)
    ensures SplitFrontmatter(OPENING + fm + DELIMITER + body) == Some((fm, body)) <==> Separable(fm)
  {
    var s := fm + DELIMITER + body;
    SplitAt(fm, body);
    FindFirst(s, DELIMITER);
    if Separable(fm) {
      forall j: nat | j < |fm|
        ensures !OccursAt(s, DELIMITER, j)
      {
        NotEarlier(fm, body, j);
      }
      FindIs(s, DELIMITER, |fm|);
    } else {
      var j := Earlier(fm, body);
      assert s[..Find(s, DELIMITER).value] != fm;
    }
  }

  // ----- Values -----

  function TrimYamlValue(s: string): Option<string> {
    var v := Trim(Trim(Trim(s, SPACES), QUOTES), SPACES);
    if v == "" then None else Some(v)
  }

  predicate CleanValue(v: string) {
    v != "" && Bare(v, SPACES) && Bare(v, QUOTES)
  }

  lemma BareAround(x: string, v: string, y: string, cs: set<char>)
    requires v != "" && Bare(v, cs) && NoneIn(x, cs) && NoneIn(y, cs)
    ensures Bare(x + v + y, cs)
  {
    var s := x + v + y;
    if x == "" {
      assert s[0] == v[0];
    } else {
      assert s[0] == x[0];
    }
    if y == "" {
      assert s[|s| - 1] == v[|v| - 1];
    } else {
      assert s[|s| - 1] == y[|y| - 1];
    }
  }

  /** Padding around quotes around padding is all removed, and nothing else. */
  lemma TrimYamlRecovers(a: string, q: string, b: string, v: string, c: string, r: string, d: string)
    requires CleanValue(v)
    requires AllIn(a, SPACES) && AllIn(b, SPACES) && AllIn(c, SPACES) && AllIn(d, SPACES)
    requires AllIn(q, QUOTES) && AllIn(r, QUOTES)
    requires (q == "" ==> b == "") && (r == "" ==> c == "")
    ensures TrimYamlValue(a + (q + (b + v + c) + r) + d) == Some(v)
  {
    var inner := b + v + c;
    var core := q + inner + r;
    BareAround(b, v, c, QUOTES);
    if q == "" {
      assert core[0] == v[0];
    } else {
      assert core[0] == q[0];
    }
    if r == "" {
      assert core[|core| - 1] == v[|v| - 1];
    } else {
      assert core[|core| - 1] == r[|r| - 1];
    }
    TrimPadded(a, core, d, SPACES);
    TrimPadded(q, inner, r, QUOTES);
    TrimPadded(b, v, c, SPACES);
  }

  /** Padding, quotes and padding again around v, none of the three longer than it is. */
  ghost predicate Wraps(s: string, a: string, q: string, b: string, v: string, c: string, r: string, d: string) {
    && s == a + (q + (b + v + c) + r) + d
    && AllIn(a + b + c + d, {' ', '\t', '\n', '\U{0B}', '\U{0C}', '\r'}) && AllIn(q + r, {'"', '\''})
    && Bare(q + (b + v + c) + r, SPACES) && Bare(b + v + c, QUOTES) && Bare(v, SPACES)
  }

  lemma WrapsAll(a: string, q: string, b: string, c: string, r: string, d: string)
    ensures AllIn(a + b + c + d, SPACES) <==>
              AllIn(a, SPACES) && AllIn(b, SPACES) && AllIn(c, SPACES) && AllIn(d, SPACES)
    ensures AllIn(q + r, QUOTES) <==> AllIn(q, QUOTES) && AllIn(r, QUOTES)
  {
    assert forall i :: 0 <= i < |a| ==> a[i] == (a + b + c + d)[i];
    assert forall i :: 0 <= i < |b| ==> b[i] == (a + b + c + d)[|a| + i];
    assert forall i :: 0 <= i < |c| ==> c[i] == (a + b + c + d)[|a| + |b| + i];
    assert forall i :: 0 <= i < |d| ==> d[i] == (a + b + c + d)[|a| + |b| + |c| + i];
    assert forall i :: 0 <= i < |q| ==> q[i] == (q + r)[i];
    assert forall i :: 0 <= i < |r| ==> r[i] == (q + r)[|q| + i];
  }

  /** Exactly the values there are: what is left between the quotes, if anything. */
  lemma TrimYamlExact(s: string, v: string)
    ensures TrimYamlValue(s) == Some(v) <==> v != "" && exists a, q, b, c, r, d :: Wraps(s, a, q, b, v, c, r, d)
  {
    if TrimYamlValue(s) == Some(v) {
      var a, q, b, c, r, d := TrimYamlWraps(s, v);
    }
    if v != "" && exists a, q, b, c, r, d :: Wraps(s, a, q, b, v, c, r, d) {
      var a, q, b, c, r, d :| Wraps(s, a, q, b, v, c, r, d);
      WrappedIsTrimmed(s, a, q, b, v, c, r, d);
    }
  }

  lemma TrimYamlWraps(s: string, v: string)
    returns (a: string, q: string, b: string, c: string, r: string, d: string)
    requires TrimYamlValue(s) == Some(v)
    ensures Wraps(s, a, q, b, v, c, r, d)
  {
    var core := Trim(s, SPACES);
    var inner := Trim(core, QUOTES);
    a, d := TrimSplits(s, SPACES);
    q, r := TrimSplits(core, QUOTES);
    b, c := TrimSplits(inner, SPACES);
    WrapsAll(a, q, b, c, r, d);
    TrimIsBare(s, SPACES);
    TrimIsBare(core, QUOTES);
    TrimIsBare(inner, SPACES);
  }

  lemma WrappedIsTrimmed(s: string, a: string, q: string, b: string, v: string, c: string, r: string, d: string)
    requires v != "" && Wraps(s, a, q, b, v, c, r, d)
    ensures TrimYamlValue(s) == Some(v)
  {
    WrapsAll(a, q, b, c, r, d);
    TrimPadded(a, q + (b + v + c) + r, d, SPACES);
    TrimPadded(q, b + v + c, r, QUOTES);
    TrimPadded(b, v, c, SPACES);
  }

  // ----- The scan -----

  datatype ParsedFile = ParsedFile(
    filename: string,
    name: Option<string>,
    description: Option<string>,
    declaredType: Option<string>,
    body: string,
    hasFrontmatter: bool)

  datatype Scan = Scan(
    inMetadata: bool,
    name: Option<string>,
    description: Option<string>,
    declaredType: Option<string>)

  const START := Scan(false, None, None, None)

  /** What one frontmatter line declares on its own. */
  datatype Key =
    | Metadata
    | Name(value: Option<string>)
    | Description(value: Option<string>)
    | Type(value: Option<string>)
    | Other

  function KeyOfParts(line: string, inner: string): Key {
    if "metadata:" <= line then Metadata
    else
      match StripPrefix(line, "name:")
      case Some(rest) => Name(TrimYamlValue(rest))
      case None =>
        match StripPrefix(line, "description:")
        case Some(rest) => Description(TrimYamlValue(rest))
        case None =>
          match StripPrefix(inner, "type:")
          case Some(rest) => Type(TrimYamlValue(rest))
          case None => Other
  }

  function KeyOf(raw: string): Key {
    var line := TrimEnd(raw, SPACES);
    KeyOfParts(line, TrimStart(line, SPACES))
  }

  function KeysOf(ls: seq<string>): (ks: seq<Key>)
    ensures |ks| == |ls|
    ensures forall i :: 0 <= i < |ls| ==> ks[i] == KeyOf(ls[i])
  {
    seq(|ls|, i requires 0 <= i < |ls| => KeyOf(ls[i]))
  }

  function StepKey(st: Scan, k: Key): Scan {
    match k
    case Metadata => st.(inMetadata := true)
    case Name(v) => st.(name := v, inMetadata := false)
    case Description(v) => st.(description := v, inMetadata := false)
    case Type(v) => if st.inMetadata then st.(declaredType := v) else st
    case Other => st
  }

  function ScanKeys(ks: seq<Key>): Scan {
    if ks == [] then START else StepKey(ScanKeys(ks[..|ks| - 1]), ks[|ks| - 1])
  }

  lemma ScanKeysStep(ks: seq<Key>, i: nat)
    requires i < |ks|
    ensures ScanKeys(ks[..i + 1]) == StepKey(ScanKeys(ks[..i]), ks[i])
  {
    assert ks[..i + 1][..i] == ks[..i];
  }

  function Parsed(filename: string, content: string): ParsedFile {
    match SplitFrontmatter(content)
    case None => ParsedFile(filename, None, None, None, content, false)
    case Some((frontmatter, body)) =>
      var st := ScanKeys(KeysOf(Lines(frontmatter)));
      ParsedFile(filename, st.name, st.description, st.declaredType, body, true)
  }

  method ScanFrontmatter(frontmatter: string)
    returns (name: Option<string>, description: Option<string>, declaredType: Option<string>)
    ensures var st := ScanKeys(KeysOf(Lines(frontmatter)));
            name == st.name && description == st.description && declaredType == st.declaredType
  {
    name, description, declaredType := None, None, None;
    var inMetadata := false;
    var ls := Lines(frontmatter);
    ghost var ks := KeysOf(ls);
    for i := 0 to |ls|
      invariant Scan(inMetadata, name, description, declaredType) == ScanKeys(ks[..i])
    {
      ScanKeysStep(ks, i);
      var line := TrimEnd(ls[i], SPACES);
      assert ks[i] == KeyOfParts(line, TrimStart(line, SPACES));
      if "metadata:" <= line {
        inMetadata := true;
        continue;
      }
      var rest := StripPrefix(line, "name:");
      if rest.Some? {
        name := TrimYamlValue(rest.value);
        inMetadata := false;
        continue;
      }
      rest := StripPrefix(line, "description:");
      if rest.Some? {
        description := TrimYamlValue(rest.value);
        inMetadata := false;
      } else if inMetadata {
        rest := StripPrefix(TrimStart(line, SPACES), "type:");
        if rest.Some? {
          declaredType := TrimYamlValue(rest.value);
        }
      }
    }
    assert ks[..|ls|] == ks;
  }

  method ParseFile(filename: string, content: string) returns (pf: ParsedFile)
    ensures pf == Parsed(filename, content)
  {
    pf := ParsedFile(filename, None, None, None, content, false);
    match SplitFrontmatter(content) {
      case None =>
      case Some((frontmatter, body)) =>
        var name, description, declaredType := ScanFrontmatter(frontmatter);
        pf := ParsedFile(filename, name, description, declaredType, body, true);
    }
  }

  // ----- What the scan means -----

  predicate ClosesSection(k: Key) {
    k.Name? || k.Description?
  }

  /** Position i lies in a metadata section: nothing since a metadata line has closed it. */
  ghost predicate InMetadata(ks: seq<Key>, i: nat)
    requires i <= |ks|
  {
    exists j :: 0 <= j < i && ks[j] == Metadata && forall k :: j < k < i ==> !ClosesSection(ks[k])
  }

  ghost predicate Declares(ks: seq<Key>, i: nat, what: Key)
    requires i < |ks|
  {
    match what
    case Name(_) => ks[i].Name?
    case Description(_) => ks[i].Description?
    case Type(_) => ks[i].Type? && InMetadata(ks, i)
    case _ => false
  }

  /** The value in `what` is the one the last declaring line gives; none without such a line. */
  ghost predicate LastDeclared(ks: seq<Key>, what: Key)
    requires what.Name? || what.Description? || what.Type?
  {
    || (what.value == None && forall i :: 0 <= i < |ks| ==> !Declares(ks, i, what))
    || exists i :: 0 <= i < |ks| && Declares(ks, i, what) && ks[i] == what &&
         forall j :: i < j < |ks| ==> !Declares(ks, j, what)
  }

  lemma InMetadataPrefix(ks: seq<Key>, n: nat, i: nat)
    requires i <= n <= |ks|
    ensures InMetadata(ks, i) <==> InMetadata(ks[..n], i)
  {
  }

  lemma SectionStep(ks: seq<Key>, n: nat)
    requires n < |ks|
    ensures InMetadata(ks, n + 1) <==> ks[n] == Metadata || (InMetadata(ks, n) && !ClosesSection(ks[n]))
  {
    if InMetadata(ks, n) && !ClosesSection(ks[n]) {
      var j :| 0 <= j < n && ks[j] == Metadata && forall k :: j < k < n ==> !ClosesSection(ks[k]);
      assert forall k :: j < k < n + 1 ==> !ClosesSection(ks[k]);
    }
  }

  lemma DeclaresPrefix(ks: seq<Key>, n: nat, what: Key)
    requires n <= |ks|
    ensures forall i :: 0 <= i < n ==> (Declares(ks, i, what) <==> Declares(ks[..n], i, what))
  {
    forall i: nat | i < n
      ensures Declares(ks, i, what) <==> Declares(ks[..n], i, what)
    {
      InMetadataPrefix(ks, n, i);
    }
  }

  predicate SameField(k: Key, k': Key) {
    (k.Name? && k'.Name?) || (k.Description? && k'.Description?) || (k.Type? && k'.Type?)
  }

  lemma LastDeclaredStep(ks: seq<Key>, n: nat, was: Key, now: Key)
    requires n + 1 == |ks| && SameField(was, now)
    requires LastDeclared(ks[..n], was)
    requires if Declares(ks, n, now) then ks[n] == now else now == was
    ensures LastDeclared(ks, now)
  {
    var p := ks[..n];
    DeclaresPrefix(ks, n, was);
    DeclaresPrefix(ks, n, now);
    if !Declares(ks, n, now) &&
       exists i :: 0 <= i < |p| && Declares(p, i, was) && p[i] == was &&
         forall j :: i < j < |p| ==> !Declares(p, j, was) {
      var i :| 0 <= i < |p| && Declares(p, i, was) && p[i] == was &&
        forall j :: i < j < |p| ==> !Declares(p, j, was);
      assert Declares(ks, i, now) && ks[i] == now;
      assert forall j :: i < j < |ks| ==> !Declares(ks, j, now);
    }
  }

  /** The stateful scan computes, for each field, the value of the last line declaring it, where
      a type line counts only inside a metadata section. */
  lemma {:induction false} ScanMeaning(ks: seq<Key>)
    ensures LastDeclared(ks, Name(ScanKeys(ks).name))
    ensures LastDeclared(ks, Description(ScanKeys(ks).description))
    ensures LastDeclared(ks, Type(ScanKeys(ks).declaredType))
    ensures ScanKeys(ks).inMetadata <==> InMetadata(ks, |ks|)
  {
    if ks != [] {
      var n := |ks| - 1;
      var before, after := ScanKeys(ks[..n]), ScanKeys(ks);
      ScanMeaning(ks[..n]);
      InMetadataPrefix(ks, n, n);
      SectionStep(ks, n);
      LastDeclaredStep(ks, n, Name(before.name), Name(after.name));
      LastDeclaredStep(ks, n, Description(before.description), Description(after.description));
      LastDeclaredStep(ks, n, Type(before.declaredType), Type(after.declaredType));
    }
  }

  // ----- What a line declares -----

  /** A type line is indented at will. */
  ghost predicate TypeAt(l: string, pad: string) {
    AllIn(pad, SPACES) && pad + "type:" <= l
  }

  lemma KeyStays(l: string, key: string)
    requires key != "" && key[|key| - 1] !in SPACES
    ensures key <= TrimEnd(l, SPACES) <==> key <= l
    ensures key <= l ==> TrimYamlValue(TrimEnd(l, SPACES)[|key|..]) == TrimYamlValue(l[|key|..])
  {
    if key <= l {
      var n := |l| - Trail(l, SPACES);
      assert n >= |key|;
      assert l[|key|..] == TrimEnd(l, SPACES)[|key|..] + l[n..];
      TrimSkipsEnd(TrimEnd(l, SPACES)[|key|..], l[n..], SPACES);
    }
  }

  lemma TypeInner(line: string, pad: string)
    requires TypeAt(line, pad)
    ensures var inner := TrimStart(line, SPACES); "type:" <= inner && inner[5..] == line[|pad| + 5..]
  {
    var rest := line[|pad|..];
    assert line == pad + rest;
    assert rest == "type:" + line[|pad| + 5..];
    TrimStartSkips(pad, rest, SPACES);
    assert Lead(rest, SPACES) == 0;
  }

  lemma TypeStays(l: string, pad: string)
    requires TypeAt(l, pad)
    ensures TypeAt(TrimEnd(l, SPACES), pad)
    ensures TrimYamlValue(TrimEnd(l, SPACES)[|pad| + 5..]) == TrimYamlValue(l[|pad| + 5..])
  {
    var key := pad + "type:";
    assert key[|key| - 1] == ':';
    KeyStays(l, key);
  }

  lemma TypeFound(l: string) returns (pad: string)
    requires "type:" <= TrimStart(TrimEnd(l, SPACES), SPACES)
    ensures TypeAt(l, pad)
  {
    var line := TrimEnd(l, SPACES);
    var k := Lead(line, SPACES);
    pad := line[..k];
    assert line[k..][..5] == "type:";
    assert line[..k + 5] == pad + "type:";
  }

  lemma TypeLineStart(l: string, pad: string)
    requires TypeAt(l, pad)
    ensures !("metadata:" <= l) && !("name:" <= l) && !("description:" <= l)
  {
    var key := pad + "type:";
    assert l[0] == key[0];
    assert key[0] in SPACES || key[0] == 't';
  }

  lemma OneStart(l: string, key: string, other: string)
    requires key != "" && other != "" && key[0] != other[0]
    ensures !(key <= l && other <= l)
  {
  }

  lemma OfMetadata(l: string)
    requires "metadata:" <= l
    ensures KeyOf(l) == Metadata
  {
    KeyStays(l, "metadata:");
  }

  lemma OfName(l: string)
    requires "name:" <= l
    ensures !("metadata:" <= l) && KeyOf(l) == Name(TrimYamlValue(l[5..]))
  {
    KeyStays(l, "name:");
    KeyStays(l, "metadata:");
    OneStart(l, "name:", "metadata:");
  }

  lemma OfDescription(l: string)
    requires "description:" <= l
    ensures !("metadata:" <= l) && !("name:" <= l) && KeyOf(l) == Description(TrimYamlValue(l[12..]))
  {
    KeyStays(l, "description:");
    KeyStays(l, "metadata:");
    KeyStays(l, "name:");
    OneStart(l, "description:", "metadata:");
    OneStart(l, "description:", "name:");
  }

  lemma NoKeyStart(l: string)
    requires !("metadata:" <= l) && !("name:" <= l) && !("description:" <= l)
    ensures var line := TrimEnd(l, SPACES);
      !("metadata:" <= line) && !("name:" <= line) && !("description:" <= line)
  {
    KeyStays(l, "metadata:");
    KeyStays(l, "name:");
    KeyStays(l, "description:");
  }

  lemma OfInner(line: string, inner: string)
    requires !("metadata:" <= line) && !("name:" <= line) && !("description:" <= line) && "type:" <= inner
    ensures KeyOfParts(line, inner) == Type(TrimYamlValue(inner[5..]))
  {
  }

  lemma OfType(l: string, pad: string)
    requires TypeAt(l, pad)
    ensures !("metadata:" <= l) && !("name:" <= l) && !("description:" <= l)
    ensures KeyOf(l) == Type(TrimYamlValue(l[|pad| + 5..]))
  {
    var line := TrimEnd(l, SPACES);
    TypeLineStart(l, pad);
    NoKeyStart(l);
    TypeStays(l, pad);
    TypeInner(line, pad);
    OfInner(line, TrimStart(line, SPACES));
  }

  lemma OfNone(l: string)
    requires !("metadata:" <= l) && !("name:" <= l) && !("description:" <= l) && !DeclaresType(l)
    ensures KeyOf(l) == Other
  {
    NoKeyStart(l);
    if "type:" <= TrimStart(TrimEnd(l, SPACES), SPACES) {
      var pad := TypeFound(l);
      assert false;
    }
  }

  ghost predicate DeclaresType(l: string) {
    exists pad :: TypeAt(l, pad)
  }

  /** Exactly what a line declares, read off the line as it stands. */
  ghost predicate Reads(k: Key, l: string) {
    && (k == Metadata <==> "metadata:" <= l)
    && (k.Name? <==> "name:" <= l)
    && ("name:" <= l ==> k == Name(TrimYamlValue(l[5..])))
    && (k.Description? <==> "description:" <= l)
    && ("description:" <= l ==> k == Description(TrimYamlValue(l[12..])))
    && (k.Type? <==> DeclaresType(l))
    && (forall pad :: TypeAt(l, pad) ==> k == Type(TrimYamlValue(l[|pad| + 5..])))
  }

  ghost predicate AllRead(ks: seq<Key>, ls: seq<string>) {
    |ks| == |ls| && forall i :: 0 <= i < |ls| ==> Reads(ks[i], ls[i])
  }

  lemma KeyOfExact(l: string)
    ensures Reads(KeyOf(l), l)
  {
    forall pad | TypeAt(l, pad)
      ensures !("metadata:" <= l) && !("name:" <= l) && !("description:" <= l)
      ensures KeyOf(l) == Type(TrimYamlValue(l[|pad| + 5..]))
    {
      OfType(l, pad);
    }
    if "metadata:" <= l {
      OfMetadata(l);
      OneStart(l, "name:", "metadata:");
      OneStart(l, "description:", "metadata:");
    } else if "name:" <= l {
      OfName(l);
      OneStart(l, "description:", "name:");
    } else if "description:" <= l {
      OfDescription(l);
    } else if !DeclaresType(l) {
      OfNone(l);
    }
  }

  lemma KeysOfExact(ls: seq<string>)
    ensures AllRead(KeysOf(ls), ls)
  {
    forall i | 0 <= i < |ls|
      ensures Reads(KeysOf(ls)[i], ls[i])
    {
      KeyOfExact(ls[i]);
    }
  }

  /** Line i is the last that begins with the key. */
  ghost predicate LastWith(ls: seq<string>, key: string, i: nat) {
    i < |ls| && key <= ls[i] && forall j :: i < j < |ls| ==> !(key <= ls[j])
  }

  /** Key i is the last that declares the kind of value it does. */
  ghost predicate LastKey(ks: seq<Key>, i: nat, what: Key)
    requires what.Name? || what.Description? || what.Type?
  {
    i < |ks| && Declares(ks, i, what) && forall j :: i < j < |ks| ==> !Declares(ks, j, what)
  }

  lemma LastIs(ks: seq<Key>, i: nat, what: Key)
    requires (what.Name? || what.Description? || what.Type?) && LastDeclared(ks, what)
    ensures (forall j :: 0 <= j < |ks| ==> !Declares(ks, j, what)) ==> what.value == None
    ensures LastKey(ks, i, what) ==> ks[i] == what
  {
  }

  lemma NameFrom(ks: seq<Key>, ls: seq<string>, key: string)
    requires |ks| == |ls| && forall i :: 0 <= i < |ls| ==> (ks[i].Name? <==> key <= ls[i])
    ensures (forall i :: 0 <= i < |ls| ==> !(key <= ls[i])) ==> ScanKeys(ks).name == None
    ensures forall i: nat :: LastWith(ls, key, i) ==> ks[i] == Name(ScanKeys(ks).name)
  {
    var what := Name(ScanKeys(ks).name);
    ScanMeaning(ks);
    LastIs(ks, 0, what);
    forall i: nat | LastWith(ls, key, i)
      ensures ks[i] == what
    {
      LastIs(ks, i, what);
    }
  }

  lemma DescriptionFrom(ks: seq<Key>, ls: seq<string>, key: string)
    requires |ks| == |ls| && forall i :: 0 <= i < |ls| ==> (ks[i].Description? <==> key <= ls[i])
    ensures (forall i :: 0 <= i < |ls| ==> !(key <= ls[i])) ==> ScanKeys(ks).description == None
    ensures forall i: nat :: LastWith(ls, key, i) ==> ks[i] == Description(ScanKeys(ks).description)
  {
    var what := Description(ScanKeys(ks).description);
    ScanMeaning(ks);
    LastIs(ks, 0, what);
    forall i: nat | LastWith(ls, key, i)
      ensures ks[i] == what
    {
      LastIs(ks, i, what);
    }
  }

  /** Since the last line before i that opens a section, none has begun with a key that closes it. */
  ghost predicate Inside(ls: seq<string>, opens: string, closes: string, shuts: string, i: nat) {
    exists j: nat :: j < i <= |ls| && opens <= ls[j]
      && forall k :: j < k < i ==> !(closes <= ls[k]) && !(shuts <= ls[k])
  }

  /** Line i is the last type line inside a section. */
  ghost predicate LastType(ls: seq<string>, opens: string, closes: string, shuts: string, i: nat) {
    && i < |ls| && DeclaresType(ls[i]) && Inside(ls, opens, closes, shuts, i)
    && forall j: nat :: i < j < |ls| ==> !(DeclaresType(ls[j]) && Inside(ls, opens, closes, shuts, j))
  }

  lemma InsideIs(ks: seq<Key>, ls: seq<string>, opens: string, closes: string, shuts: string, i: nat)
    requires |ks| == |ls| && i <= |ls|
    requires forall j :: 0 <= j < |ls| ==> (ks[j] == Metadata <==> opens <= ls[j])
    requires forall j :: 0 <= j < |ls| ==> (ClosesSection(ks[j]) <==> closes <= ls[j] || shuts <= ls[j])
    ensures Inside(ls, opens, closes, shuts, i) <==> InMetadata(ks, i)
  {
  }

  lemma TypeFrom(ks: seq<Key>, ls: seq<string>, opens: string, closes: string, shuts: string)
    requires |ks| == |ls|
    requires forall j: nat :: j <= |ls| ==> (Inside(ls, opens, closes, shuts, j) <==> InMetadata(ks, j))
    requires forall j :: 0 <= j < |ls| ==> (ks[j].Type? <==> DeclaresType(ls[j]))
    ensures (forall i: nat :: i < |ls| && DeclaresType(ls[i]) ==> !Inside(ls, opens, closes, shuts, i)) ==>
              ScanKeys(ks).declaredType == None
    ensures forall i: nat :: LastType(ls, opens, closes, shuts, i) ==> ks[i] == Type(ScanKeys(ks).declaredType)
  {
    var what := Type(ScanKeys(ks).declaredType);
    ScanMeaning(ks);
    TypeOf(ks, ls, opens, closes, shuts, what);
  }

  lemma TypeOf(ks: seq<Key>, ls: seq<string>, opens: string, closes: string, shuts: string, what: Key)
    requires |ks| == |ls| && what.Type? && LastDeclared(ks, what)
    requires forall j: nat :: j <= |ls| ==> (Inside(ls, opens, closes, shuts, j) <==> InMetadata(ks, j))
    requires forall j :: 0 <= j < |ls| ==> (ks[j].Type? <==> DeclaresType(ls[j]))
    ensures (forall i: nat :: i < |ls| && DeclaresType(ls[i]) ==> !Inside(ls, opens, closes, shuts, i)) ==>
              what.value == None
    ensures forall i: nat :: LastType(ls, opens, closes, shuts, i) ==> ks[i] == what
  {
    LastIs(ks, 0, what);
    forall i: nat | LastType(ls, opens, closes, shuts, i)
      ensures ks[i] == what
    {
      assert Declares(ks, i, what) && forall j :: i < j < |ks| ==> !Declares(ks, j, what);
      LastIs(ks, i, what);
    }
  }

  /** What the lines of a frontmatter declare: the name is the value of the last name line, ... */
  lemma NameIs(ls: seq<string>)
    ensures var name := ScanKeys(KeysOf(ls)).name;
      && ((forall i :: 0 <= i < |ls| ==> !("name:" <= ls[i])) ==> name == None)
      && (forall i: nat :: LastWith(ls, "name:", i) ==> name == TrimYamlValue(ls[i][5..]))
  {
    var ks := KeysOf(ls);
    KeysOfExact(ls);
    assert forall i :: 0 <= i < |ls| ==> Reads(ks[i], ls[i]);
    NameFrom(ks, ls, "name:");
  }

  /** ... the description that of the last description line, ... */
  lemma DescriptionIs(ls: seq<string>)
    ensures var description := ScanKeys(KeysOf(ls)).description;
      && ((forall i :: 0 <= i < |ls| ==> !("description:" <= ls[i])) ==> description == None)
      && (forall i: nat :: LastWith(ls, "description:", i) ==> description == TrimYamlValue(ls[i][12..]))
  {
    var ks := KeysOf(ls);
    KeysOfExact(ls);
    assert forall i :: 0 <= i < |ls| ==> Reads(ks[i], ls[i]);
    DescriptionFrom(ks, ls, "description:");
  }

  lemma SectionsAre(ks: seq<Key>, ls: seq<string>)
    requires AllRead(ks, ls)
    ensures forall j: nat :: j <= |ls| ==>
              (Inside(ls, "metadata:", "name:", "description:", j) <==> InMetadata(ks, j))
  {
    assert forall i :: 0 <= i < |ls| ==> Reads(ks[i], ls[i]);
    forall j: nat | j <= |ls|
      ensures Inside(ls, "metadata:", "name:", "description:", j) <==> InMetadata(ks, j)
    {
      InsideIs(ks, ls, "metadata:", "name:", "description:", j);
    }
  }

  /** ... and the type that of the last type line, however indented, inside a metadata section. */
  lemma TypeIs(ls: seq<string>)
    ensures var declared := ScanKeys(KeysOf(ls)).declaredType;
      && ((forall i: nat :: i < |ls| && DeclaresType(ls[i]) ==>
             !Inside(ls, "metadata:", "name:", "description:", i)) ==> declared == None)
      && (forall i: nat, pad :: LastType(ls, "metadata:", "name:", "description:", i) && TypeAt(ls[i], pad) ==>
            declared == TrimYamlValue(ls[i][|pad| + 5..]))
  {
    var ks := KeysOf(ls);
    KeysOfExact(ls);
    SectionsAre(ks, ls);
    forall i | 0 <= i < |ls|
      ensures ks[i].Type? <==> DeclaresType(ls[i])
      ensures forall pad :: TypeAt(ls[i], pad) ==> ks[i] == Type(TrimYamlValue(ls[i][|pad| + 5..]))
    {
      assert Reads(ks[i], ls[i]);
    }
    TypeFrom(ks, ls, "metadata:", "name:", "description:");
  }

  // ----- Lines that declare nothing -----

  lemma {:induction false} ScanSkipsOther(before: seq<Key>, after: seq<Key>)
    ensures ScanKeys(before + [Other] + after) == ScanKeys(before + after)
  {
    if after == [] {
      assert before + [Other] + after == before + [Other] && before + after == before;
      assert (before + [Other])[..|before|] == before;
    } else {
      var n := |after| - 1;
      ScanSkipsOther(before, after[..n]);
      assert (before + [Other] + after)[..|before| + 1 + n] == before + [Other] + after[..n];
      assert (before + after)[..|before| + n] == before + after[..n];
    }
  }

  lemma ChoppedKey(l: string)
    ensures KeyOf(ChopCr(l)) == KeyOf(l)
  {
    if ChopCr(l) != l {
      assert l == ChopCr(l) + "\r";
      TrimEndSkips(ChopCr(l), "\r", SPACES);
    }
  }

  lemma {:induction false} KeysOfUnlines(ls: seq<string>)
    requires forall i :: 0 <= i < |ls| ==> '\n' !in ls[i]
    ensures KeysOf(Lines(Unlines(ls))) == KeysOf(ls)
  {
    if ls != [] {
      LinesCons(ls[0], Unlines(ls[1..]));
      KeysOfUnlines(ls[1..]);
      ChoppedKey(ls[0]);
      KeysAppend([ChopCr(ls[0])], Lines(Unlines(ls[1..])));
      KeysAppend([ls[0]], ls[1..]);
      OneOf(KeysOf([ChopCr(ls[0])]), KeyOf(ls[0]));
      OneOf(KeysOf([ls[0]]), KeyOf(ls[0]));
      assert ls == [ls[0]] + ls[1..];
    }
  }

  lemma EmptyLineKey()
    ensures KeyOf("") == Other
  {
  }

  /** Closing the last line changes nothing. */
  lemma ScanOfClosed(fm: string)
    ensures ScanKeys(KeysOf(Lines(fm + "\n"))) == ScanKeys(KeysOf(Lines(fm)))
  {
    var whole, last := WholeLines(fm), LastLine(fm);
    LastLineSplits(fm);
    Regroup(whole, last, "\n");
    LinesAppend(whole, last);
    LinesAppend(whole, last + "\n");
    LineGrows(last, "");
    assert "" + last == last;
    var ks := KeysOf(Lines(whole));
    KeysAppend(Lines(whole), Lines(last));
    KeysAppend(Lines(whole), [ChopCr(last)]);
    OneOf(KeysOf([ChopCr(last)]), KeyOf(ChopCr(last)));
    ChoppedKey(last);
    if last == "" {
      EmptyLineKey();
      ScanSkipsOther(ks, []);
      assert ks + [Other] + [] == ks + [Other] && ks + [] == ks;
    } else {
      OneOf(KeysOf([last]), KeyOf(last));
    }
  }

  lemma ScanOfJoin(ls: seq<string>)
    requires forall i :: 0 <= i < |ls| ==> '\n' !in ls[i]
    ensures ScanKeys(KeysOf(Lines(Join(ls, "\n")))) == ScanKeys(KeysOf(ls))
  {
    if ls != [] {
      ScanOfClosed(Join(ls, "\n"));
      JoinTerminated(ls);
      KeysOfUnlines(ls);
    }
  }

  /** A file with these lines in its frontmatter. */
  function Document(ls: seq<string>, body: string): string {
    "---\n" + Join(ls, "\n") + "\n---\n" + body
  }

  lemma ParsedDocument(filename: string, ls: seq<string>, body: string)
    requires (forall i :: 0 <= i < |ls| ==> '\n' !in ls[i]) && Separable(Join(ls, "\n"))
    ensures var st := ScanKeys(KeysOf(ls));
      Parsed(filename, Document(ls, body)) == ParsedFile(filename, st.name, st.description, st.declaredType, body, true)
  {
    var fm := Join(ls, "\n");
    SplitRecovers(fm, body);
    ParsedParts(filename, Document(ls, body), fm, body);
    ScanOfJoin(ls);
  }

  lemma OtherKey(l: string, before: seq<string>, after: seq<string>)
    requires KeyOf(l) == Other
    ensures ScanKeys(KeysOf(before + [l] + after)) == ScanKeys(KeysOf(before + after))
  {
    OneOf(KeysOf([l]), Other);
    KeysAppend(before + [l], after);
    KeysAppend(before, [l]);
    KeysAppend(before, after);
    ScanSkipsOther(KeysOf(before), KeysOf(after));
  }

  lemma SameScan(filename: string, ls: seq<string>, ls': seq<string>, body: string)
    requires ScanKeys(KeysOf(ls)) == ScanKeys(KeysOf(ls'))
    requires (forall i :: 0 <= i < |ls| ==> '\n' !in ls[i]) && (forall i :: 0 <= i < |ls'| ==> '\n' !in ls'[i])
    requires Separable(Join(ls, "\n")) && Separable(Join(ls', "\n"))
    ensures Parsed(filename, Document(ls, body)) == Parsed(filename, Document(ls', body))
  {
    ParsedDocument(filename, ls, body);
    ParsedDocument(filename, ls', body);
  }

  lemma TypeRest(l: string, pad: string) returns (rest: string)
    requires TypeAt(l, pad)
    ensures AllIn(pad, SPACES) && l == pad + "type:" + rest
  {
    rest := l[|pad| + 5..];
  }

  lemma NoTypeLine(l: string)
    requires forall pad, rest :: AllIn(pad, SPACES) ==> l != pad + "type:" + rest
    ensures !DeclaresType(l)
  {
    if DeclaresType(l) {
      var pad :| TypeAt(l, pad);
      var rest := TypeRest(l, pad);
      assert false;
    }
  }

  lemma Without(before: seq<string>, l: string, after: seq<string>)
    requires forall i :: 0 <= i < |before + [l] + after| ==> '\n' !in (before + [l] + after)[i]
    ensures forall i :: 0 <= i < |before + after| ==> '\n' !in (before + after)[i]
  {
    var ls := before + [l] + after;
    assert forall i :: 0 <= i < |before + after| ==> (before + after)[i] == ls[if i < |before| then i else i + 1];
  }

  /** A line that begins with none of the three keys and is no type line may be inserted anywhere. */
  lemma OtherLineIgnored(filename: string, before: seq<string>, l: string, after: seq<string>, body: string)
    requires !("metadata:" <= l) && !("name:" <= l) && !("description:" <= l)
    requires forall pad, rest :: AllIn(pad, SPACES) ==> l != pad + "type:" + rest
    requires forall i :: 0 <= i < |before + [l] + after| ==> '\n' !in (before + [l] + after)[i]
    requires Separable(Join(before + [l] + after, "\n")) && Separable(Join(before + after, "\n"))
    ensures Parsed(filename, Document(before + [l] + after, body)) == Parsed(filename, Document(before + after, body))
  {
    NoTypeLine(l);
    OfNone(l);
    OtherKey(l, before, after);
    Without(before, l, after);
    SameScan(filename, before + [l] + after, before + after, body);
  }

  /** Without an opening line and a closing one after it, a file is all body and declares nothing. */
  lemma NoFrontmatter(filename: string, content: string)
    requires !("---\n" <= content) || forall i: nat :: !OccursAt(content[4..], "\n---\n", i)
    ensures Parsed(filename, content) == ParsedFile(filename, None, None, None, content, false)
  {
    if OPENING <= content {
      FindFirst(content[4..], DELIMITER);
    }
  }

  // ----- Printing and parsing back -----

  /** A frontmatter block, its value wrapped in any run of quote characters. */
  datatype Block =
    | NameBlock(value: string, quote: string)
    | DescriptionBlock(value: string, quote: string)
    | TypeBlock(value: string, quote: string)

  predicate GoodBlock(b: Block) {
    CleanValue(b.value) && '\n' !in b.value && AllIn(b.quote, QUOTES)
  }

  function Quoted(b: Block): string {
    " " + (b.quote + b.value + b.quote)
  }

  function BlockLines(b: Block): seq<string> {
    match b
    case NameBlock(_, _) => ["name:" + Quoted(b)]
    case DescriptionBlock(_, _) => ["description:" + Quoted(b)]
    case TypeBlock(_, _) => ["metadata:", "  type:" + Quoted(b)]
  }

  function BlocksLines(bs: seq<Block>): seq<string> {
    if bs == [] then [] else BlocksLines(bs[..|bs| - 1]) + BlockLines(bs[|bs| - 1])
  }

  function Printed(bs: seq<Block>, body: string): string {
    OPENING + Join(BlocksLines(bs), "\n") + DELIMITER + body
  }

  function AfterBlock(st: Scan, b: Block): Scan {
    match b
    case NameBlock(v, _) => st.(name := Some(v), inMetadata := false)
    case DescriptionBlock(v, _) => st.(description := Some(v), inMetadata := false)
    case TypeBlock(v, _) => st.(declaredType := Some(v), inMetadata := true)
  }

  /** The last block of each kind, as a scan result. */
  function Latest(bs: seq<Block>): Scan {
    if bs == [] then START else AfterBlock(Latest(bs[..|bs| - 1]), bs[|bs| - 1])
  }

  lemma QuotedValue(b: Block)
    requires GoodBlock(b)
    ensures TrimYamlValue(Quoted(b)) == Some(b.value)
  {
    var q, v := b.quote, b.value;
    TrimYamlRecovers(" ", q, "", v, "", q, "");
    assert "" + v + "" == v;
    var s := " " + (q + v + q);
    assert s + "" == s;
  }

  lemma KeyLine(key: string, b: Block)
    requires GoodBlock(b) && '\n' !in key && key != "" && key[0] != '-'
    ensures TrimEnd(key + Quoted(b), SPACES) == key + Quoted(b) && InnerLine(key + Quoted(b))
  {
    var l := key + Quoted(b);
    var c := l[|l| - 1];
    if b.quote == "" {
      assert c == b.value[|b.value| - 1];
    } else {
      assert c == b.quote[|b.quote| - 1];
    }
    assert c !in SPACES;
    assert Trail(l, SPACES) == 0;
  }

  predicate InnerLine(l: string) {
    PlainLine(l) && l != "" && l[0] != '-'
  }

  predicate AllInner(ls: seq<string>) {
    forall i :: 0 <= i < |ls| ==> InnerLine(ls[i])
  }

  lemma NameLine(l: string, rest: string)
    requires TrimEnd(l, SPACES) == l && l == "name:" + rest
    ensures KeyOf(l) == Name(TrimYamlValue(rest))
  {
    assert l[0] == 'n';
    StripPrefixOf("name:", rest);
  }

  lemma DescriptionLine(l: string, rest: string)
    requires TrimEnd(l, SPACES) == l && l == "description:" + rest
    ensures KeyOf(l) == Description(TrimYamlValue(rest))
  {
    assert l[0] == 'd';
    NoPrefix(l, "name:");
    StripPrefixOf("description:", rest);
  }

  lemma TypeParts(l: string, t: string, rest: string)
    requires l != "" && l[0] in SPACES && t == "type:" + rest
    ensures KeyOfParts(l, t) == Type(TrimYamlValue(rest))
  {
    NoPrefix(l, "name:");
    NoPrefix(l, "description:");
    StripPrefixOf("type:", rest);
  }

  lemma TypeLine(l: string, pad: string, t: string)
    requires TrimEnd(l, SPACES) == l && l == pad + t && t != "" && t[0] !in SPACES
    requires pad != "" && AllIn(pad, SPACES)
    ensures KeyOf(l) == KeyOfParts(l, t)
    ensures l[0] in SPACES
  {
    assert l[0] == pad[0];
    TrimStartSkips(pad, t, SPACES);
    assert Lead(t, SPACES) == 0;
  }

  lemma MetadataLine(l: string)
    requires l == "metadata:"
    ensures KeyOf(l) == Metadata && InnerLine(l)
  {
    assert l[0] == 'm' && l[8] == ':';
    assert Trail(l, SPACES) == 0;
  }

  function BlockKeys(b: Block): seq<Key> {
    match b
    case NameBlock(v, _) => [Name(Some(v))]
    case DescriptionBlock(v, _) => [Description(Some(v))]
    case TypeBlock(v, _) => [Metadata, Type(Some(v))]
  }

  lemma NameBlockKeys(b: Block)
    requires GoodBlock(b) && b.NameBlock?
    ensures KeyOf(BlockLines(b)[0]) == Name(Some(b.value)) && InnerLine(BlockLines(b)[0])
  {
    var value, l := Quoted(b), BlockLines(b)[0];
    KeyLine("name:", b);
    NameLine(l, value);
    QuotedValue(b);
  }

  lemma DescriptionBlockKeys(b: Block)
    requires GoodBlock(b) && b.DescriptionBlock?
    ensures KeyOf(BlockLines(b)[0]) == Description(Some(b.value)) && InnerLine(BlockLines(b)[0])
  {
    var value, l := Quoted(b), BlockLines(b)[0];
    KeyLine("description:", b);
    DescriptionLine(l, value);
    QuotedValue(b);
  }

  lemma TypeBlockKeys(b: Block)
    requires GoodBlock(b) && b.TypeBlock?
    ensures KeyOf(BlockLines(b)[0]) == Metadata && InnerLine(BlockLines(b)[0])
    ensures KeyOf(BlockLines(b)[1]) == Type(Some(b.value)) && InnerLine(BlockLines(b)[1])
  {
    var value, l := Quoted(b), BlockLines(b)[1];
    MetadataLine(BlockLines(b)[0]);
    KeyLine("  type:", b);
    var t := "type:" + value;
    assert l == "  " + t && t[0] == 't';
    TypeLine(l, "  ", t);
    TypeParts(l, t, value);
    QuotedValue(b);
  }

  lemma OneOf<T>(s: seq<T>, a: T)
    requires |s| == 1 && s[0] == a
    ensures s == [a]
  {
  }

  lemma TwoOf<T>(s: seq<T>, a: T, b: T)
    requires |s| == 2 && s[0] == a && s[1] == b
    ensures s == [a, b]
  {
  }

  lemma BlockInner(b: Block)
    requires GoodBlock(b)
    ensures AllInner(BlockLines(b))
  {
    if b.NameBlock? {
      NameBlockKeys(b);
    } else if b.DescriptionBlock? {
      DescriptionBlockKeys(b);
    } else {
      TypeBlockKeys(b);
    }
  }

  lemma BlockLinesKeys(b: Block)
    requires GoodBlock(b)
    ensures KeysOf(BlockLines(b)) == BlockKeys(b) && AllInner(BlockLines(b))
  {
    BlockInner(b);
    if b.NameBlock? {
      NameBlockKeys(b);
      OneOf(KeysOf(BlockLines(b)), Name(Some(b.value)));
    } else if b.DescriptionBlock? {
      DescriptionBlockKeys(b);
      OneOf(KeysOf(BlockLines(b)), Description(Some(b.value)));
    } else {
      TypeBlockKeys(b);
      TwoOf(KeysOf(BlockLines(b)), Metadata, Type(Some(b.value)));
    }
  }

  lemma StepBlock(ks: seq<Key>, b: Block)
    ensures ScanKeys(ks + BlockKeys(b)) == AfterBlock(ScanKeys(ks), b)
  {
    var all := ks + BlockKeys(b);
    if b.TypeBlock? {
      assert all[..|all| - 1] == ks + [Metadata];
      assert (ks + [Metadata])[..|ks|] == ks;
    } else {
      assert all[..|all| - 1] == ks;
    }
  }

  lemma KeysAppend(ls: seq<string>, more: seq<string>)
    ensures KeysOf(ls + more) == KeysOf(ls) + KeysOf(more)
  {
  }

  lemma {:induction false} BlocksScan(bs: seq<Block>)
    requires forall b :: b in bs ==> GoodBlock(b)
    ensures ScanKeys(KeysOf(BlocksLines(bs))) == Latest(bs)
  {
    if bs != [] {
      var init, b := bs[..|bs| - 1], bs[|bs| - 1];
      BlocksScan(init);
      BlockLinesKeys(b);
      StepBlock(KeysOf(BlocksLines(init)), b);
      KeysAppend(BlocksLines(init), BlockLines(b));
    }
  }

  lemma {:induction false} BlocksInner(bs: seq<Block>)
    requires forall b :: b in bs ==> GoodBlock(b)
    ensures AllInner(BlocksLines(bs))
  {
    if bs != [] {
      var init, b := bs[..|bs| - 1], bs[|bs| - 1];
      BlocksInner(init);
      BlockLinesKeys(b);
    }
  }

  lemma {:induction false} NoDashLine(ls: seq<string>, i: nat)
    requires AllInner(ls)
    ensures !OccursAt(Join(ls, "\n"), "\n---", i)
  {
    var s := Join(ls, "\n");
    if i < |s| && ls != [] {
      var l := ls[0];
      assert InnerLine(l);
      if i < |l| {
        assert s[i..][0] == s[i] == l[i];
        assert l[i] in l;
      } else if |ls| > 1 {
        var rest := Join(ls[1..], "\n");
        assert s == l + "\n" + rest;
        assert InnerLine(ls[1]) && ls[1..][0] == ls[1];
        if i == |l| {
          assert s[i..][1] == rest[0] == ls[1][0];
        } else {
          assert s[i..] == rest[i - |l| - 1..];
          NoDashLine(ls[1..], i - |l| - 1);
        }
      }
    }
  }

  lemma NoDelimiter(ls: seq<string>)
    requires AllInner(ls)
    ensures Separable(Join(ls, "\n"))
  {
    var fm := Join(ls, "\n");
    FindFirst(fm, DELIMITER);
    if Contains(fm, DELIMITER) {
      var i := Find(fm, DELIMITER).value;
      assert DELIMITER[..4] == fm[i..][..4] == "\n---";
      NoDashLine(ls, i);
    }
    if 4 <= |fm| {
      NoDashLine(ls, |fm| - 4);
    }
  }

  /** Parsing undoes printing: any blocks in any order, quoted or not, before any body; of
      several blocks of one kind the last one counts. */
  lemma ParseRecovers(filename: string, bs: seq<Block>, body: string)
    requires forall b :: b in bs ==> GoodBlock(b)
    ensures var st := Latest(bs);
            Parsed(filename, Printed(bs, body)) ==
              ParsedFile(filename, st.name, st.description, st.declaredType, body, true)
  {
    var ls := BlocksLines(bs);
    var fm := Join(ls, "\n");
    BlocksScan(bs);
    BlocksInner(bs);
    NoDelimiter(ls);
    SplitRecovers(fm, body);
    forall i | 0 <= i < |ls|
      ensures PlainLine(ls[i]) && ls[i] != ""
    {
      assert InnerLine(ls[i]);
    }
    LinesOfJoin(ls);
    ParsedParts(filename, Printed(bs, body), fm, body);
  }

  lemma ParsedParts(filename: string, content: string, fm: string, body: string)
    requires SplitFrontmatter(content) == Some((fm, body))
    ensures Parsed(filename, content) ==
              var st := ScanKeys(KeysOf(Lines(fm)));
              ParsedFile(filename, st.name, st.description, st.declaredType, body, true)
  {
  }

  lemma LatestThree(x: Block, y: Block, z: Block)
    ensures Latest([x, y, z]) == AfterBlock(AfterBlock(AfterBlock(START, x), y), z)
  {
    assert [x, y, z][..2] == [x, y] && [x, y][..1] == [x] && [x][..0] == [];
    assert Latest([x]) == AfterBlock(START, x);
    assert Latest([x, y]) == AfterBlock(Latest([x]), y);
  }

  predicate OneOfSix(n: Block, d: Block, t: Block, x: Block, y: Block, z: Block) {
    || (x == n && ((y == d && z == t) || (y == t && z == d)))
    || (x == d && ((y == n && z == t) || (y == t && z == n)))
    || (x == t && ((y == n && z == d) || (y == d && z == n)))
  }

  lemma SixOrders(n: Block, d: Block, t: Block, bs: seq<Block>)
    requires n != d && d != t && n != t
    requires multiset(bs) == multiset{n, d, t}
    ensures |bs| == 3 && OneOfSix(n, d, t, bs[0], bs[1], bs[2])
  {
    assert |bs| == |multiset(bs)| == 3;
    var x, y, z := bs[0], bs[1], bs[2];
    assert bs == [x, y, z];
    assert multiset{x, y, z} == multiset{n, d, t};
    assert x in multiset{n, d, t} && y in multiset{n, d, t} && z in multiset{n, d, t};
    assert n in multiset{x, y, z} && d in multiset{x, y, z} && t in multiset{x, y, z};
  }

  lemma LatestCanonical(n: Block, d: Block, t: Block, bs: seq<Block>)
    requires n.NameBlock? && d.DescriptionBlock? && t.TypeBlock?
    requires multiset(bs) == multiset{n, d, t}
    ensures var st := Latest(bs);
            st.name == Some(n.value) && st.description == Some(d.value) && st.declaredType == Some(t.value)
  {
    SixOrders(n, d, t, bs);
    LatestThree(bs[0], bs[1], bs[2]);
    assert bs == [bs[0], bs[1], bs[2]];
  }

  /** The three canonical blocks in whatever order give back exactly what was printed. */
  lemma CanonicalRecovers(filename: string, n: Block, d: Block, t: Block, bs: seq<Block>, body: string)
    requires GoodBlock(n) && GoodBlock(d) && GoodBlock(t)
    requires n.NameBlock? && d.DescriptionBlock? && t.TypeBlock?
    requires multiset(bs) == multiset{n, d, t}
    ensures Parsed(filename, Printed(bs, body)) ==
              ParsedFile(filename, Some(n.value), Some(d.value), Some(t.value), body, true)
  {
    LatestCanonical(n, d, t, bs);
    forall b | b in bs
      ensures GoodBlock(b)
    {
      assert b in multiset(bs);
    }
    ParseRecovers(filename, bs, body);
  }
}
