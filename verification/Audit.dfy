/** The deterministic audit of a memory root (src/audit.rs). A directory listing, in whatever
    order it is enumerated, becomes a report; an empty report spares the daemon an agent run. */
module Audit {
  import opened Wrappers
  import opened Text
  import opened Lists
  import opened Frontmatter
  import opened Wikilinks
  import opened Descriptions
  import opened Duplicates

  /** A directory entry; the content is missing when it cannot be read as text. */
  datatype Entry = Entry(name: string, isFile: bool, content: Option<string>)

  datatype TypeIssue = TypeIssue(file: string, got: string)

  datatype WikilinkIssue = WikilinkIssue(from: string, slug: string)

  datatype AuditReport = AuditReport(
    fileCount: nat,
    memoryMdLines: nat,
    memoryMdOversize: bool,
    missingFrontmatter: seq<string>,
    invalidType: seq<TypeIssue>,
    danglingIndexEntries: seq<string>,
    missingFromIndex: seq<string>,
    brokenWikilinks: seq<WikilinkIssue>,
    missingWhyOrHow: seq<string>,
    duplicateCandidates: seq<DupePair>)
  {
    function TotalIssues(): nat {
      |missingFrontmatter| + |invalidType| + |danglingIndexEntries| + |missingFromIndex|
      + |brokenWikilinks| + |missingWhyOrHow| + |duplicateCandidates|
      + (if memoryMdOversize then 1 else 0)
    }
  }

  const EMPTY := AuditReport(0, 0, false, [], [], [], [], [], [], [])

  const INDEX: string := "MEMORY.md"
  const VALID_TYPES: set<string> := {"user", "feedback", "project", "reference"}
  const STRUCTURED_TYPES: set<string> := {"feedback", "project"}
  const LINE_BUDGET: nat := 200
  const MIN_KEY: nat := 16

  // ----- Findings of one file or one index line -----

  predicate IsIndex(e: Entry) {
    e.isFile && e.name == INDEX && e.content.Some?
  }

  predicate IsMemoryFile(e: Entry) {
    e.isFile && EndsWith(e.name, ".md") && e.name != INDEX && e.content.Some?
  }

  function FileOf(e: Entry): seq<ParsedFile> {
    if IsMemoryFile(e) then [Parsed(e.name, e.content.value)] else []
  }

  function Files(entries: seq<Entry>): seq<ParsedFile> {
    FlatMap(entries, FileOf)
  }

  /** The lines of the index file, the last one read should there be several. */
  function IndexLines(entries: seq<Entry>): Option<seq<string>> {
    if entries == [] then None
    else
      var e := entries[|entries| - 1];
      if IsIndex(e) then Some(Lines(e.content.value)) else IndexLines(entries[..|entries| - 1])
  }

  predicate Named(f: ParsedFile) {
    f.hasFrontmatter && f.name.Some?
  }

  predicate HasWhy(body: string) {
    Contains(body, "**Why:**") || Contains(body, "**Why**:")
  }

  predicate HasHow(body: string) {
    Contains(body, "**How to apply:**") || Contains(body, "**How to apply**:")
  }

  function ExtractTarget(line: string): Option<string> {
    match Cut(line, "](")
    case None => None
    case Some((_, after)) =>
      match Cut(after, ")")
      case None => None
      case Some((target, _)) => if EndsWith(target, ".md") then Some(target) else None
  }

  function MissingFrontmatter(f: ParsedFile): seq<string> {
    if Named(f) then [] else [f.filename]
  }

  function InvalidType(f: ParsedFile): seq<TypeIssue> {
    if Named(f) && f.declaredType.Some? && f.declaredType.value !in VALID_TYPES then
      [TypeIssue(f.filename, f.declaredType.value)]
    else
      []
  }

  predicate LacksStructure(f: ParsedFile) {
    && f.declaredType.Some? && f.declaredType.value in STRUCTURED_TYPES
    && (!HasWhy(f.body) || !HasHow(f.body))
  }

  function MissingWhyOrHow(f: ParsedFile): seq<string> {
    if Named(f) && LacksStructure(f) then [f.filename] else []
  }

  function Target(line: string): seq<string> {
    match ExtractTarget(line)
    case None => []
    case Some(t) => [t]
  }

  function Dangling(onDisk: set<string>): string -> seq<string> {
    (line: string) =>
      if ExtractTarget(line).Some? && ExtractTarget(line).value !in onDisk then Target(line) else []
  }

  function Unindexed(targets: set<string>): ParsedFile -> seq<string> {
    (f: ParsedFile) => if f.filename in targets then [] else [f.filename]
  }

  function Unresolved(file: string, names: set<string>): string -> seq<WikilinkIssue> {
    (slug: string) => if slug in names then [] else [WikilinkIssue(file, slug)]
  }

  function Broken(names: set<string>): ParsedFile -> seq<WikilinkIssue> {
    (f: ParsedFile) => FlatMap(BodyLinks(f.body), Unresolved(f.filename, names))
  }

  function LongKey(f: ParsedFile): seq<Keyed> {
    match f.description
    case None => []
    case Some(d) => if |NormalizeDesc(d)| >= MIN_KEY then [Keyed(NormalizeDesc(d), f.filename)] else []
  }

  function NamesOf(files: seq<ParsedFile>): set<string> {
    set f | f in files && Named(f) :: f.name.value
  }

  function Filenames(files: seq<ParsedFile>): set<string> {
    set f | f in files :: f.filename
  }

  function Targets(ls: seq<string>): set<string> {
    set l | l in ls && ExtractTarget(l).Some? :: ExtractTarget(l).value
  }

  // ----- What a report must say -----

  ghost predicate IndexFindings(files: seq<ParsedFile>, index: Option<seq<string>>, r: AuditReport) {
    match index
    case None =>
      r.memoryMdLines == 0 && !r.memoryMdOversize && r.danglingIndexEntries == [] && r.missingFromIndex == []
    case Some(ls) =>
      && r.memoryMdLines == |ls|
      && (r.memoryMdOversize <==> |ls| > LINE_BUDGET)
      && r.danglingIndexEntries == FlatMap(ls, Dangling(Filenames(files)))
      && r.missingFromIndex == FlatMap(files, Unindexed(Targets(ls)))
  }

  /** Every list follows the enumeration order, except the duplicates, which come in the order of
      a hash map: of these only the multiset is determined. */
  ghost predicate IsReportFor(entries: seq<Entry>, r: AuditReport) {
    var files := Files(entries);
    && r.fileCount == |files|
    && IndexFindings(files, IndexLines(entries), r)
    && r.missingFrontmatter == FlatMap(files, MissingFrontmatter)
    && r.invalidType == FlatMap(files, InvalidType)
    && r.missingWhyOrHow == FlatMap(files, MissingWhyOrHow)
    && r.brokenWikilinks == FlatMap(files, Broken(NamesOf(files)))
    && multiset(r.duplicateCandidates) == multiset(AllPairs(FlatMap(files, LongKey)))
  }

  // ----- The audit -----

  method ReadFiles(entries: seq<Entry>) returns (files: seq<ParsedFile>, index: Option<seq<string>>)
    ensures files == Files(entries) && index == IndexLines(entries)
  {
    files := [];
    index := None;
    for i := 0 to |entries|
      invariant files == Files(entries[..i]) && index == IndexLines(entries[..i])
    {
      var e := entries[i];
      FlatMapStep(entries, i, FileOf);
      assert entries[..i + 1][..i] == entries[..i];
      if !e.isFile || !EndsWith(e.name, ".md") || e.content.None? {
        IndexIsMarkdown(e);
        continue;
      }
      if e.name == INDEX {
        index := Some(Lines(e.content.value));
        continue;
      }
      var f := ParseFile(e.name, e.content.value);
      files := files + [f];
    }
    assert entries[..|entries|] == entries;
  }

  lemma IndexIsMarkdown(e: Entry)
    ensures IsIndex(e) ==> EndsWith(e.name, ".md")
  {
    assert INDEX[6..] == ".md";
  }

  lemma NamesStep(files: seq<ParsedFile>, i: nat)
    requires i < |files|
    ensures NamesOf(files[..i + 1]) ==
              NamesOf(files[..i]) + (if Named(files[i]) then {files[i].name.value} else {})
  {
    assert forall f :: f in files[..i + 1] <==> f in files[..i] || f == files[i];
  }

  method CheckFiles(files: seq<ParsedFile>)
    returns (missing: seq<string>, invalid: seq<TypeIssue>, unstructured: seq<string>,
             nameToFilename: map<string, string>)
    ensures missing == FlatMap(files, MissingFrontmatter)
    ensures invalid == FlatMap(files, InvalidType)
    ensures unstructured == FlatMap(files, MissingWhyOrHow)
    ensures nameToFilename.Keys == NamesOf(files)
  {
    missing, invalid, unstructured, nameToFilename := [], [], [], map[];
    for i := 0 to |files|
      invariant missing == FlatMap(files[..i], MissingFrontmatter)
      invariant invalid == FlatMap(files[..i], InvalidType)
      invariant unstructured == FlatMap(files[..i], MissingWhyOrHow)
      invariant nameToFilename.Keys == NamesOf(files[..i])
    {
      var f := files[i];
      FlatMapStep(files, i, MissingFrontmatter);
      FlatMapStep(files, i, InvalidType);
      FlatMapStep(files, i, MissingWhyOrHow);
      NamesStep(files, i);
      if !f.hasFrontmatter || f.name.None? {
        missing := missing + [f.filename];
        continue;
      }
      nameToFilename := nameToFilename[f.name.value := f.filename];
      if f.declaredType.Some? {
        var t := f.declaredType.value;
        if t !in VALID_TYPES {
          invalid := invalid + [TypeIssue(f.filename, t)];
        }
        if t in STRUCTURED_TYPES && (!HasWhy(f.body) || !HasHow(f.body)) {
          unstructured := unstructured + [f.filename];
        }
      }
    }
    assert files[..|files|] == files;
  }

  lemma TargetsStep(ls: seq<string>, i: nat)
    requires i < |ls|
    ensures Targets(ls[..i + 1]) ==
              Targets(ls[..i]) + (if ExtractTarget(ls[i]).Some? then {ExtractTarget(ls[i]).value} else {})
  {
    assert forall l :: l in ls[..i + 1] <==> l in ls[..i] || l == ls[i];
  }

  method CheckIndex(files: seq<ParsedFile>, ls: seq<string>)
    returns (dangling: seq<string>, unindexed: seq<string>)
    ensures dangling == FlatMap(ls, Dangling(Filenames(files)))
    ensures unindexed == FlatMap(files, Unindexed(Targets(ls)))
  {
    var indexTargets: set<string> := {};
    var onDisk := set f | f in files :: f.filename;
    dangling, unindexed := [], [];
    for i := 0 to |ls|
      invariant indexTargets == Targets(ls[..i])
      invariant dangling == FlatMap(ls[..i], Dangling(onDisk))
    {
      FlatMapStep(ls, i, Dangling(onDisk));
      TargetsStep(ls, i);
      var target := ExtractTarget(ls[i]);
      if target.Some? {
        indexTargets := indexTargets + {target.value};
        if target.value !in onDisk {
          dangling := dangling + [target.value];
        }
      }
    }
    assert ls[..|ls|] == ls;
    for i := 0 to |files|
      invariant unindexed == FlatMap(files[..i], Unindexed(indexTargets))
    {
      FlatMapStep(files, i, Unindexed(indexTargets));
      if files[i].filename !in indexTargets {
        unindexed := unindexed + [files[i].filename];
      }
    }
    assert files[..|files|] == files;
  }

  method CheckLinks(f: ParsedFile, names: set<string>) returns (broken: seq<WikilinkIssue>)
    ensures broken == Broken(names)(f)
  {
    broken := [];
    var slugs := ExtractWikilinks(f.body);
    for i := 0 to |slugs|
      invariant broken == FlatMap(slugs[..i], Unresolved(f.filename, names))
    {
      FlatMapStep(slugs, i, Unresolved(f.filename, names));
      if slugs[i] !in names {
        broken := broken + [WikilinkIssue(f.filename, slugs[i])];
      }
    }
    assert slugs[..|slugs|] == slugs;
  }

  method CheckWikilinks(files: seq<ParsedFile>, names: set<string>) returns (broken: seq<WikilinkIssue>)
    ensures broken == FlatMap(files, Broken(names))
  {
    broken := [];
    for i := 0 to |files|
      invariant broken == FlatMap(files[..i], Broken(names))
    {
      FlatMapStep(files, i, Broken(names));
      var found := CheckLinks(files[i], names);
      broken := broken + found;
    }
    assert files[..|files|] == files;
  }

  method LongKeys(files: seq<ParsedFile>) returns (ks: seq<Keyed>)
    ensures ks == FlatMap(files, LongKey)
  {
    ks := [];
    for i := 0 to |files|
      invariant ks == FlatMap(files[..i], LongKey)
    {
      FlatMapStep(files, i, LongKey);
      if files[i].description.Some? {
        var key := NormalizeDesc(files[i].description.value);
        if |key| >= MIN_KEY {
          ks := ks + [Keyed(key, files[i].filename)];
        }
      }
    }
    assert files[..|files|] == files;
  }

  method RunAudit(isDir: bool, entries: seq<Entry>) returns (r: AuditReport)
    ensures if isDir then IsReportFor(entries, r) else r == EMPTY
  {
    if !isDir {
      return EMPTY;
    }
    var files, index := ReadFiles(entries);
    var missing, invalid, unstructured, nameToFilename := CheckFiles(files);
    var dangling, unindexed: seq<string> := [], [];
    var mdLines := 0;
    if index.Some? {
      mdLines := |index.value|;
      dangling, unindexed := CheckIndex(files, index.value);
    }
    var broken := CheckWikilinks(files, nameToFilename.Keys);
    var ks := LongKeys(files);
    var dupes := DetectDuplicates(ks);
    r := AuditReport(|files|, mdLines, mdLines > LINE_BUDGET, missing, invalid, dangling, unindexed,
                     broken, unstructured, dupes);
  }
}
