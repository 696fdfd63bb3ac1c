/** What an audit report means: it does not depend on enumeration or hash order, and it is empty
    exactly for a clean memory root. */
module AuditProperties {
  import opened Wrappers
  import opened Text
  import opened Lists
  import opened Frontmatter
  import opened Wikilinks
  import opened Descriptions
  import opened Duplicates
  import opened Audit

  /** A directory holds at most one entry of a given name. */
  ghost predicate OneEntryPerName(entries: seq<Entry>) {
    forall e, e' :: e in entries && e' in entries && e.name == e'.name ==> e == e'
  }

  // ----- Members -----

  lemma {:induction false} FilesMember(entries: seq<Entry>, f: ParsedFile)
    ensures f in Files(entries) <==>
              exists e :: e in entries && IsMemoryFile(e) && f == Parsed(e.name, e.content.value)
  {
    if entries != [] {
      var e := entries[0];
      FilesMember(entries[1..], f);
      assert forall x :: x in entries <==> x == e || x in entries[1..];
      assert Files(entries) == FileOf(e) + Files(entries[1..]);
    }
  }

  lemma {:induction false} IndexIs(entries: seq<Entry>, e: Entry)
    requires OneEntryPerName(entries) && e in entries && IsIndex(e)
    ensures IndexLines(entries) == Some(Lines(e.content.value))
  {
    var n := |entries| - 1;
    var last := entries[n];
    assert entries == entries[..n] + [last];
    if IsIndex(last) {
      assert last in entries && last.name == e.name;
    } else {
      assert forall x :: x in entries[..n] ==> x in entries;
      IndexIs(entries[..n], e);
    }
  }

  lemma {:induction false} NoIndex(entries: seq<Entry>)
    requires forall e :: e in entries ==> !IsIndex(e)
    ensures IndexLines(entries) == None
  {
    if entries != [] {
      var n := |entries| - 1;
      assert entries[n] in entries;
      assert forall x :: x in entries[..n] ==> x in entries;
      NoIndex(entries[..n]);
    }
  }

  // ----- Order -----

  ghost predicate SameFindings(r: AuditReport, r': AuditReport) {
    && r.fileCount == r'.fileCount
    && r.memoryMdLines == r'.memoryMdLines
    && r.memoryMdOversize == r'.memoryMdOversize
    && multiset(r.missingFrontmatter) == multiset(r'.missingFrontmatter)
    && multiset(r.invalidType) == multiset(r'.invalidType)
    && r.danglingIndexEntries == r'.danglingIndexEntries
    && multiset(r.missingFromIndex) == multiset(r'.missingFromIndex)
    && multiset(r.brokenWikilinks) == multiset(r'.brokenWikilinks)
    && multiset(r.missingWhyOrHow) == multiset(r'.missingWhyOrHow)
    && Unordered(r.duplicateCandidates) == Unordered(r'.duplicateCandidates)
  }

  lemma IndexPermuted(entries: seq<Entry>, entries': seq<Entry>)
    requires multiset(entries) == multiset(entries') && OneEntryPerName(entries)
    ensures IndexLines(entries) == IndexLines(entries')
  {
    SameMembers(entries, entries');
    if exists e :: e in entries && IsIndex(e) {
      var e :| e in entries && IsIndex(e);
      IndexIs(entries, e);
      IndexIs(entries', e);
    } else {
      NoIndex(entries);
      NoIndex(entries');
    }
  }

  lemma DuplicatesPermuted(ks: seq<Keyed>, ls: seq<Keyed>, ps: seq<DupePair>, qs: seq<DupePair>)
    requires multiset(ks) == multiset(ls)
    requires multiset(ps) == multiset(AllPairs(ks)) && multiset(qs) == multiset(AllPairs(ls))
    ensures Unordered(ps) == Unordered(qs)
  {
    AllPairsPermuted(ks, ls);
    UnorderedPermuted(ps, AllPairs(ks));
    UnorderedPermuted(qs, AllPairs(ls));
  }

  lemma SetsPermuted(files: seq<ParsedFile>, files': seq<ParsedFile>)
    requires multiset(files) == multiset(files')
    ensures NamesOf(files) == NamesOf(files') && Filenames(files) == Filenames(files')
  {
    SameMembers(files, files');
  }

  /** Any two runs over the same directory report the same findings, whatever order the entries
      are enumerated and the hash map is traversed in. */
  lemma OrderIndependent(entries: seq<Entry>, entries': seq<Entry>, r: AuditReport, r': AuditReport)
    requires multiset(entries) == multiset(entries') && OneEntryPerName(entries)
    requires IsReportFor(entries, r) && IsReportFor(entries', r')
    ensures SameFindings(r, r')
  {
    var files, files' := Files(entries), Files(entries');
    FlatMapPermuted(entries, entries', FileOf);
    SameMembers(files, files');
    SetsPermuted(files, files');
    IndexPermuted(entries, entries');
    FlatMapPermuted(files, files', MissingFrontmatter);
    FlatMapPermuted(files, files', InvalidType);
    FlatMapPermuted(files, files', MissingWhyOrHow);
    FlatMapPermuted(files, files', Broken(NamesOf(files)));
    FlatMapPermuted(files, files', LongKey);
    DuplicatesPermuted(FlatMap(files, LongKey), FlatMap(files', LongKey),
                       r.duplicateCandidates, r'.duplicateCandidates);
    if IndexLines(entries).Some? {
      FlatMapPermuted(files, files', Unindexed(Targets(IndexLines(entries).value)));
    }
  }

  lemma {:induction false} UnorderedSize(ps: seq<DupePair>)
    ensures |Unordered(ps)| == |ps|
  {
    if ps != [] {
      UnorderedSize(ps[1..]);
    }
  }

  /** In particular the decision to spawn the agent is order-independent. */
  lemma TotalIndependent(r: AuditReport, r': AuditReport)
    requires SameFindings(r, r')
    ensures r.TotalIssues() == r'.TotalIssues()
  {
    SameSize(r.missingFrontmatter, r'.missingFrontmatter);
    SameSize(r.invalidType, r'.invalidType);
    SameSize(r.missingFromIndex, r'.missingFromIndex);
    SameSize(r.brokenWikilinks, r'.brokenWikilinks);
    SameSize(r.missingWhyOrHow, r'.missingWhyOrHow);
    UnorderedSize(r.duplicateCandidates);
    UnorderedSize(r'.duplicateCandidates);
  }

  // ----- Clean roots -----

  function ParsedEntry(e: Entry): ParsedFile
    requires IsMemoryFile(e)
  {
    Parsed(e.name, e.content.value)
  }

  ghost predicate ResolvesIn(entries: seq<Entry>, slug: string) {
    exists e :: e in entries && IsMemoryFile(e) && ParsedEntry(e).hasFrontmatter
                && ParsedEntry(e).name == Some(slug)
  }

  predicate ValidType(t: string) {
    t == "user" || t == "feedback" || t == "project" || t == "reference"
  }

  predicate Structured(t: string) {
    t == "feedback" || t == "project"
  }

  /** Each of the two marks is there in one of its forms. */
  ghost predicate Marked(body: string) {
    && (Occurs(body, "**Why:**") || Occurs(body, "**Why**:"))
    && (Occurs(body, "**How to apply:**") || Occurs(body, "**How to apply**:"))
  }

  ghost predicate CleanFile(entries: seq<Entry>, f: ParsedFile) {
    && f.hasFrontmatter && f.name.Some?
    && (f.declaredType.Some? ==> ValidType(f.declaredType.value))
    && (f.declaredType.Some? && Structured(f.declaredType.value) ==> Marked(f.body))
    && (forall slug :: slug in BodyLinks(f.body) ==> ResolvesIn(entries, slug))
  }

  ghost predicate OnDisk(entries: seq<Entry>, name: string) {
    exists m :: m in entries && IsMemoryFile(m) && m.name == name
  }

  ghost predicate Indexed(ls: seq<string>, name: string) {
    exists l :: l in ls && ExtractTarget(l) == Some(name)
  }

  /** The index is short enough and points at the memory files, all of them and nothing else. */
  ghost predicate CleanIndex(entries: seq<Entry>, e: Entry)
    requires IsIndex(e)
  {
    var ls := Lines(e.content.value);
    && |ls| <= 200
    && (forall l :: l in ls && ExtractTarget(l).Some? ==> OnDisk(entries, ExtractTarget(l).value))
    && (forall m :: m in entries && IsMemoryFile(m) ==> Indexed(ls, m.name))
  }

  function LongKeyOf(e: Entry): Option<string> {
    if !IsMemoryFile(e) then None
    else
      match ParsedEntry(e).description
      case None => None
      case Some(d) => if |NormalizeDesc(d)| >= 16 then Some(NormalizeDesc(d)) else None
  }

  ghost predicate Collide(e: Entry, e': Entry) {
    LongKeyOf(e).Some? && LongKeyOf(e) == LongKeyOf(e')
  }

  ghost predicate Clean(entries: seq<Entry>) {
    && (forall e :: e in entries && IsMemoryFile(e) ==> CleanFile(entries, ParsedEntry(e)))
    && (forall e :: e in entries && IsIndex(e) ==> CleanIndex(entries, e))
    && (forall i, j :: 0 <= i < j < |entries| ==> !Collide(entries[i], entries[j]))
  }

  lemma NamesResolve(entries: seq<Entry>, slug: string)
    ensures slug in NamesOf(Files(entries)) <==> ResolvesIn(entries, slug)
  {
    var files := Files(entries);
    if slug in NamesOf(files) {
      var f :| f in files && Named(f) && f.name.value == slug;
      FilesMember(entries, f);
      var e :| e in entries && IsMemoryFile(e) && f == Parsed(e.name, e.content.value);
      assert ParsedEntry(e).name == Some(slug);
    }
    if ResolvesIn(entries, slug) {
      var e :| e in entries && IsMemoryFile(e) && ParsedEntry(e).hasFrontmatter
               && ParsedEntry(e).name == Some(slug);
      FilesMember(entries, ParsedEntry(e));
      assert Named(ParsedEntry(e));
    }
  }

  lemma UnresolvedEmpty(file: string, names: set<string>, slugs: seq<string>)
    ensures FlatMap(slugs, Unresolved(file, names)) == [] <==> forall i :: 0 <= i < |slugs| ==> slugs[i] in names
  {
    FlatMapEmpty(slugs, Unresolved(file, names));
    forall i | 0 <= i < |slugs|
      ensures Unresolved(file, names)(slugs[i]) == [] <==> slugs[i] in names
    {
    }
  }

  lemma AllResolve(entries: seq<Entry>, slugs: seq<string>)
    requires forall i :: 0 <= i < |slugs| ==> slugs[i] in NamesOf(Files(entries))
    ensures forall slug :: slug in slugs ==> ResolvesIn(entries, slug)
  {
    forall slug | slug in slugs
      ensures ResolvesIn(entries, slug)
    {
      NamesResolve(entries, slug);
    }
  }

  lemma AllNamed(entries: seq<Entry>, slugs: seq<string>)
    requires forall slug :: slug in slugs ==> ResolvesIn(entries, slug)
    ensures forall i :: 0 <= i < |slugs| ==> slugs[i] in NamesOf(Files(entries))
  {
    forall i | 0 <= i < |slugs|
      ensures slugs[i] in NamesOf(Files(entries))
    {
      assert slugs[i] in slugs;
      NamesResolve(entries, slugs[i]);
    }
  }

  ghost predicate AllResolved(entries: seq<Entry>, slugs: seq<string>) {
    forall slug :: slug in slugs ==> ResolvesIn(entries, slug)
  }

  lemma ResolvedIff(entries: seq<Entry>, slugs: seq<string>)
    ensures AllResolved(entries, slugs) <==> forall i :: 0 <= i < |slugs| ==> slugs[i] in NamesOf(Files(entries))
  {
    if AllResolved(entries, slugs) {
      AllNamed(entries, slugs);
    } else if forall i :: 0 <= i < |slugs| ==> slugs[i] in NamesOf(Files(entries)) {
      AllResolve(entries, slugs);
    }
  }

  lemma BrokenEmpty(entries: seq<Entry>, f: ParsedFile)
    ensures Broken(NamesOf(Files(entries)))(f) == [] <==> AllResolved(entries, BodyLinks(f.body))
  {
    UnresolvedEmpty(f.filename, NamesOf(Files(entries)), BodyLinks(f.body));
    ResolvedIff(entries, BodyLinks(f.body));
  }

  ghost predicate NoFileFindings(entries: seq<Entry>, f: ParsedFile) {
    && MissingFrontmatter(f) == [] && InvalidType(f) == [] && MissingWhyOrHow(f) == []
    && Broken(NamesOf(Files(entries)))(f) == []
  }

  lemma FileFindings(entries: seq<Entry>, f: ParsedFile)
    ensures NoFileFindings(entries, f) <==> CleanFile(entries, f)
  {
    BrokenEmpty(entries, f);
    TypeFinding(f);
    StructureFinding(f);
  }

  lemma TypeFinding(f: ParsedFile)
    ensures InvalidType(f) ==
      if Named(f) && f.declaredType.Some? && !ValidType(f.declaredType.value) then
        [TypeIssue(f.filename, f.declaredType.value)]
      else
        []
  {
  }

  lemma StructureFinding(f: ParsedFile)
    ensures MissingWhyOrHow(f) == [] || MissingWhyOrHow(f) == [f.filename]
    ensures MissingWhyOrHow(f) == [] <==>
              !Named(f) || f.declaredType.None? || !Structured(f.declaredType.value) || Marked(f.body)
  {
    MarksAre(f.body);
  }

  lemma MarksAre(body: string)
    ensures HasWhy(body) <==> Occurs(body, "**Why:**") || Occurs(body, "**Why**:")
    ensures HasHow(body) <==> Occurs(body, "**How to apply:**") || Occurs(body, "**How to apply**:")
  {
    ContainsIff(body, "**Why:**");
    ContainsIff(body, "**Why**:");
    ContainsIff(body, "**How to apply:**");
    ContainsIff(body, "**How to apply**:");
  }

  lemma FilesQuantified(entries: seq<Entry>)
    ensures (forall i :: 0 <= i < |Files(entries)| ==> NoFileFindings(entries, Files(entries)[i])) <==>
            (forall e :: e in entries && IsMemoryFile(e) ==> NoFileFindings(entries, ParsedEntry(e)))
  {
    var files := Files(entries);
    forall i | 0 <= i < |files|
      ensures exists e :: e in entries && IsMemoryFile(e) && files[i] == ParsedEntry(e)
    {
      FilesMember(entries, files[i]);
      var e :| e in entries && IsMemoryFile(e) && files[i] == Parsed(e.name, e.content.value);
      assert files[i] == ParsedEntry(e);
    }
    forall e | e in entries && IsMemoryFile(e)
      ensures exists i :: 0 <= i < |files| && files[i] == ParsedEntry(e)
    {
      FilesMember(entries, ParsedEntry(e));
    }
  }

  /** The four per-file finding lists are empty exactly when every memory file is clean. */
  lemma PerFileClean(entries: seq<Entry>, r: AuditReport)
    requires IsReportFor(entries, r)
    ensures r.missingFrontmatter == [] && r.invalidType == [] && r.missingWhyOrHow == []
            && r.brokenWikilinks == [] <==>
            forall e :: e in entries && IsMemoryFile(e) ==> CleanFile(entries, ParsedEntry(e))
  {
    var files := Files(entries);
    FlatMapEmpty(files, MissingFrontmatter);
    FlatMapEmpty(files, InvalidType);
    FlatMapEmpty(files, MissingWhyOrHow);
    FlatMapEmpty(files, Broken(NamesOf(files)));
    FilesQuantified(entries);
    forall e | e in entries && IsMemoryFile(e)
      ensures NoFileFindings(entries, ParsedEntry(e)) <==> CleanFile(entries, ParsedEntry(e))
    {
      FileFindings(entries, ParsedEntry(e));
    }
  }

  lemma FilenamesAre(entries: seq<Entry>, name: string)
    ensures name in Filenames(Files(entries)) <==> OnDisk(entries, name)
  {
    var files := Files(entries);
    if name in Filenames(files) {
      var f :| f in files && f.filename == name;
      FilesMember(entries, f);
    }
    if OnDisk(entries, name) {
      var m :| m in entries && IsMemoryFile(m) && m.name == name;
      FilesMember(entries, ParsedEntry(m));
      assert ParsedEntry(m).filename == name;
    }
  }

  lemma DanglingEmpty(entries: seq<Entry>, ls: seq<string>)
    ensures FlatMap(ls, Dangling(Filenames(Files(entries)))) == [] <==>
              forall l :: l in ls && ExtractTarget(l).Some? ==> OnDisk(entries, ExtractTarget(l).value)
  {
    var onDisk := Filenames(Files(entries));
    FlatMapEmpty(ls, Dangling(onDisk));
    forall l | l in ls && ExtractTarget(l).Some?
      ensures Dangling(onDisk)(l) == [] <==> OnDisk(entries, ExtractTarget(l).value)
    {
      FilenamesAre(entries, ExtractTarget(l).value);
    }
    assert forall i :: 0 <= i < |ls| ==> ls[i] in ls;
  }

  lemma TargetsAre(ls: seq<string>, name: string)
    ensures name in Targets(ls) <==> Indexed(ls, name)
  {
  }

  lemma UnindexedEmpty(entries: seq<Entry>, ls: seq<string>)
    ensures FlatMap(Files(entries), Unindexed(Targets(ls))) == [] <==>
              forall m :: m in entries && IsMemoryFile(m) ==> Indexed(ls, m.name)
  {
    var files, targets := Files(entries), Targets(ls);
    FlatMapEmpty(files, Unindexed(targets));
    assert forall i :: 0 <= i < |files| ==>
      (Unindexed(targets)(files[i]) == [] <==> files[i].filename in targets);
    forall i | 0 <= i < |files|
      ensures OnDisk(entries, files[i].filename)
      ensures files[i].filename in targets <==> Indexed(ls, files[i].filename)
    {
      FilenamesAre(entries, files[i].filename);
      TargetsAre(ls, files[i].filename);
    }
    forall m | m in entries && IsMemoryFile(m)
      ensures exists i :: 0 <= i < |files| && files[i].filename == m.name
    {
      FilesMember(entries, ParsedEntry(m));
    }
  }

  lemma IndexClean(entries: seq<Entry>, r: AuditReport)
    requires IsReportFor(entries, r) && OneEntryPerName(entries)
    ensures r.danglingIndexEntries == [] && r.missingFromIndex == [] && !r.memoryMdOversize <==>
            forall e :: e in entries && IsIndex(e) ==> CleanIndex(entries, e)
  {
    if exists e :: e in entries && IsIndex(e) {
      var e :| e in entries && IsIndex(e);
      IndexIs(entries, e);
      DanglingEmpty(entries, Lines(e.content.value));
      UnindexedEmpty(entries, Lines(e.content.value));
      assert forall e' :: e' in entries && IsIndex(e') ==> e' == e;
    } else {
      NoIndex(entries);
    }
  }

  // ----- Exactly what is reported -----

  /** The files audited: those that can be read, end in .md, and are not the index; and how many. */
  lemma MemoryFilesAre(entries: seq<Entry>, f: ParsedFile)
    ensures f in Files(entries) <==>
              exists e :: e in entries && e.isFile && e.content.Some? && e.name != "MEMORY.md"
                && (exists stem :: e.name == stem + ".md") && f == Parsed(e.name, e.content.value)
  {
    FilesMember(entries, f);
    forall e | e in entries
      ensures EndsWith(e.name, ".md") <==> exists stem :: e.name == stem + ".md"
    {
      EndsWithIff(e.name, ".md");
    }
    if f in Files(entries) {
      var e :| e in entries && IsMemoryFile(e) && f == Parsed(e.name, e.content.value);
      assert e.isFile && e.name != "MEMORY.md";
    }
  }

  lemma {:induction false} FilesCounted(entries: seq<Entry>)
    ensures |Files(entries)| == Count(entries, e => IsMemoryFile(e))
  {
    if entries != [] {
      var n := |entries| - 1;
      FilesCounted(entries[..n]);
      FlatMapStep(entries, n, FileOf);
      assert entries[..n + 1] == entries;
    }
  }

  ghost predicate LacksName(e: Entry) {
    IsMemoryFile(e) && !(ParsedEntry(e).hasFrontmatter && ParsedEntry(e).name.Some?)
  }

  ghost predicate OfType(e: Entry, t: string) {
    IsMemoryFile(e) && !LacksName(e) && ParsedEntry(e).declaredType == Some(t)
  }

  lemma FileFound<T>(entries: seq<Entry>, f: ParsedFile -> seq<T>, y: T)
    ensures y in FlatMap(Files(entries), f) <==>
              exists e :: e in entries && IsMemoryFile(e) && y in f(ParsedEntry(e))
  {
    var files := Files(entries);
    FlatMapMember(files, f, y);
    if y in FlatMap(files, f) {
      var i :| 0 <= i < |files| && y in f(files[i]);
      FilesMember(entries, files[i]);
      var e :| e in entries && IsMemoryFile(e) && files[i] == Parsed(e.name, e.content.value);
      assert y in f(ParsedEntry(e));
    }
    if e :| e in entries && IsMemoryFile(e) && y in f(ParsedEntry(e)) {
      FilesMember(entries, ParsedEntry(e));
    }
  }

  /** A file is reported as lacking frontmatter if and only if it has none or no name in it, ... */
  lemma MissingFrontmatterIff(entries: seq<Entry>, r: AuditReport, file: string)
    requires IsReportFor(entries, r)
    ensures file in r.missingFrontmatter <==> exists e :: e in entries && e.name == file && LacksName(e)
  {
    FileFound(entries, MissingFrontmatter, file);
    forall e | e in entries && IsMemoryFile(e)
      ensures file in MissingFrontmatter(ParsedEntry(e)) <==> e.name == file && LacksName(e)
    {
    }
  }

  /** ... for its type if and only if it is named and declares one that is not among the four, ... */
  lemma InvalidTypeIff(entries: seq<Entry>, r: AuditReport, file: string, t: string)
    requires IsReportFor(entries, r)
    ensures TypeIssue(file, t) in r.invalidType <==>
              && t != "user" && t != "feedback" && t != "project" && t != "reference"
              && exists e :: e in entries && e.name == file && OfType(e, t)
  {
    FileFound(entries, InvalidType, TypeIssue(file, t));
    forall e | e in entries && IsMemoryFile(e)
      ensures TypeIssue(file, t) in InvalidType(ParsedEntry(e)) <==>
                !ValidType(t) && e.name == file && OfType(e, t)
    {
      TypeFinding(ParsedEntry(e));
    }
  }

  /** ... and for its structure if and only if it is named, is of type feedback or project, and carries
      neither form of the one mark or neither of the other. */
  lemma MissingWhyOrHowIff(entries: seq<Entry>, r: AuditReport, file: string)
    requires IsReportFor(entries, r)
    ensures file in r.missingWhyOrHow <==>
              exists e :: e in entries && e.name == file && (OfType(e, "feedback") || OfType(e, "project"))
                && !Marked(ParsedEntry(e).body)
  {
    FileFound(entries, MissingWhyOrHow, file);
    forall e | e in entries && IsMemoryFile(e)
      ensures file in MissingWhyOrHow(ParsedEntry(e)) <==>
                e.name == file && (OfType(e, "feedback") || OfType(e, "project")) && !Marked(ParsedEntry(e).body)
    {
      StructureFinding(ParsedEntry(e));
    }
  }

  /** A link is reported if and only if a file carries it and no named file has that name. */
  lemma BrokenIff(entries: seq<Entry>, r: AuditReport, file: string, slug: string)
    requires IsReportFor(entries, r)
    ensures WikilinkIssue(file, slug) in r.brokenWikilinks <==>
              && !ResolvesIn(entries, slug)
              && exists e :: e in entries && IsMemoryFile(e) && e.name == file && slug in BodyLinks(ParsedEntry(e).body)
  {
    var names := NamesOf(Files(entries));
    FileFound(entries, Broken(names), WikilinkIssue(file, slug));
    NamesResolve(entries, slug);
    forall e | e in entries && IsMemoryFile(e)
      ensures WikilinkIssue(file, slug) in Broken(names)(ParsedEntry(e)) <==>
                !ResolvesIn(entries, slug) && e.name == file && slug in BodyLinks(ParsedEntry(e).body)
    {
      FlatMapMember(BodyLinks(ParsedEntry(e).body), Unresolved(e.name, names), WikilinkIssue(file, slug));
    }
  }

  lemma DanglingFound(ls: seq<string>, onDisk: set<string>, target: string)
    ensures target in FlatMap(ls, Dangling(onDisk)) <==> Indexed(ls, target) && target !in onDisk
  {
    FlatMapMember(ls, Dangling(onDisk), target);
    if Indexed(ls, target) {
      var i :| 0 <= i < |ls| && ExtractTarget(ls[i]) == Some(target);
      assert target !in onDisk ==> target in Dangling(onDisk)(ls[i]);
    }
  }

  /** The index findings: a target is dangling if and only if some line points at it and no file is there, ... */
  lemma DanglingIff(entries: seq<Entry>, r: AuditReport, target: string)
    requires IsReportFor(entries, r)
    ensures target in r.danglingIndexEntries <==>
              && IndexLines(entries).Some? && Indexed(IndexLines(entries).value, target) && !OnDisk(entries, target)
  {
    if IndexLines(entries).Some? {
      DanglingFound(IndexLines(entries).value, Filenames(Files(entries)), target);
      FilenamesAre(entries, target);
    }
  }

  /** ... a file is missing if and only if it is there and no line points at it, and the index is over its budget
      if and only if it has more than 200 lines; without an index none of this is reported. */
  lemma UnindexedIff(entries: seq<Entry>, r: AuditReport, file: string)
    requires IsReportFor(entries, r)
    ensures file in r.missingFromIndex <==>
              && IndexLines(entries).Some? && OnDisk(entries, file) && !Indexed(IndexLines(entries).value, file)
    ensures r.memoryMdOversize <==> IndexLines(entries).Some? && |IndexLines(entries).value| > 200
    ensures r.memoryMdLines == if IndexLines(entries).Some? then |IndexLines(entries).value| else 0
  {
    if IndexLines(entries).Some? {
      var ls := IndexLines(entries).value;
      FileFound(entries, Unindexed(Targets(ls)), file);
      TargetsAre(ls, file);
    }
  }

  /** Every finding counts one. */
  lemma FindingsCount(r: AuditReport, s: string, t: TypeIssue, w: WikilinkIssue, p: DupePair)
    ensures EMPTY.TotalIssues() == 0
    ensures r.(missingFrontmatter := r.missingFrontmatter + [s]).TotalIssues() == r.TotalIssues() + 1
    ensures r.(invalidType := r.invalidType + [t]).TotalIssues() == r.TotalIssues() + 1
    ensures r.(danglingIndexEntries := r.danglingIndexEntries + [s]).TotalIssues() == r.TotalIssues() + 1
    ensures r.(missingFromIndex := r.missingFromIndex + [s]).TotalIssues() == r.TotalIssues() + 1
    ensures r.(brokenWikilinks := r.brokenWikilinks + [w]).TotalIssues() == r.TotalIssues() + 1
    ensures r.(missingWhyOrHow := r.missingWhyOrHow + [s]).TotalIssues() == r.TotalIssues() + 1
    ensures r.(duplicateCandidates := r.duplicateCandidates + [p]).TotalIssues() == r.TotalIssues() + 1
    ensures !r.memoryMdOversize ==> r.(memoryMdOversize := true).TotalIssues() == r.TotalIssues() + 1
  {
  }

  // ----- Collisions -----

  function KeysIn(entries: seq<Entry>): seq<Keyed> {
    FlatMap(Files(entries), LongKey)
  }

  lemma KeysCons(entries: seq<Entry>)
    requires entries != []
    ensures KeysIn(entries) ==
              (match LongKeyOf(entries[0])
               case None => []
               case Some(k) => [Keyed(k, entries[0].name)]) + KeysIn(entries[1..])
  {
    var e := entries[0];
    FlatMapAppend(FileOf(e), Files(entries[1..]), LongKey);
    if IsMemoryFile(e) {
      assert FileOf(e)[1..] == [];
      assert FlatMap(FileOf(e), LongKey) == LongKey(ParsedEntry(e)) + [];
    }
  }

  ghost predicate HasKey(ks: seq<Keyed>, key: string) {
    exists k :: k in ks && k.key == key
  }

  ghost predicate EntryHasKey(entries: seq<Entry>, key: string) {
    exists i :: 0 <= i < |entries| && LongKeyOf(entries[i]) == Some(key)
  }

  lemma EntryHasKeyCons(entries: seq<Entry>, key: string)
    requires entries != []
    ensures EntryHasKey(entries, key) <==>
              LongKeyOf(entries[0]) == Some(key) || EntryHasKey(entries[1..], key)
  {
    assert forall j :: 0 < j < |entries| ==> entries[j] == entries[1..][j - 1];
    if EntryHasKey(entries[1..], key) {
      var i :| 0 <= i < |entries[1..]| && LongKeyOf(entries[1..][i]) == Some(key);
      assert LongKeyOf(entries[i + 1]) == Some(key);
    }
  }

  lemma HasKeyCons(k: Keyed, ks: seq<Keyed>, key: string)
    ensures HasKey([k] + ks, key) <==> k.key == key || HasKey(ks, key)
    ensures HasKey([] + ks, key) <==> HasKey(ks, key)
  {
    assert k in [k] + ks && forall x :: x in ks ==> x in [k] + ks;
    assert [] + ks == ks;
  }

  lemma {:induction false} KeysMember(entries: seq<Entry>, key: string)
    ensures HasKey(KeysIn(entries), key) <==> EntryHasKey(entries, key)
  {
    if entries != [] {
      var e := entries[0];
      KeysCons(entries);
      KeysMember(entries[1..], key);
      EntryHasKeyCons(entries, key);
      HasKeyCons(Keyed(if LongKeyOf(e).Some? then LongKeyOf(e).value else "", e.name), KeysIn(entries[1..]), key);
    }
  }

  lemma {:induction false} PairsWithEmpty(x: Keyed, later: seq<Keyed>)
    ensures PairsWith(x, later) == [] <==> forall k :: k in later ==> k.key != x.key
  {
    if later != [] {
      PairsWithEmpty(x, later[1..]);
      assert forall k :: k in later <==> k == later[0] || k in later[1..];
    }
  }

  // ----- Each collision once -----

  /** No two entries of a directory have the same name. */
  predicate DistinctNames(entries: seq<Entry>) {
    forall i, j :: 0 <= i < j < |entries| ==> entries[i].name != entries[j].name
  }

  ghost predicate Keys(entries: seq<Entry>, k: Keyed) {
    exists i :: 0 <= i < |entries| && LongKeyOf(entries[i]) == Some(k.key) && entries[i].name == k.file
  }

  lemma KeysStepBack(entries: seq<Entry>, k: Keyed)
    requires entries != []
    ensures Keys(entries, k) <==>
            (LongKeyOf(entries[0]) == Some(k.key) && entries[0].name == k.file) || Keys(entries[1..], k)
  {
    assert forall j :: 0 < j < |entries| ==> entries[j] == entries[1..][j - 1];
    if Keys(entries[1..], k) {
      var i :| 0 <= i < |entries| - 1 && LongKeyOf(entries[1..][i]) == Some(k.key) && entries[1..][i].name == k.file;
      assert LongKeyOf(entries[i + 1]) == Some(k.key);
    }
  }

  lemma {:induction false} KeysAre(entries: seq<Entry>, k: Keyed)
    ensures k in KeysIn(entries) <==> Keys(entries, k)
  {
    if entries != [] {
      KeysCons(entries);
      KeysAre(entries[1..], k);
      KeysStepBack(entries, k);
    }
  }

  lemma {:induction false} KeysDistinct(entries: seq<Entry>)
    requires DistinctNames(entries)
    ensures DistinctFiles(KeysIn(entries))
  {
    if entries != [] {
      var rest := entries[1..];
      assert forall j :: 0 < j < |entries| ==> entries[j] == rest[j - 1];
      KeysCons(entries);
      KeysDistinct(rest);
      var ks := KeysIn(rest);
      forall j | 0 <= j < |ks|
        ensures ks[j].file != entries[0].name
      {
        KeysAre(rest, ks[j]);
        var i :| 0 <= i < |rest| && LongKeyOf(rest[i]) == Some(ks[j].key) && rest[i].name == ks[j].file;
        assert entries[i + 1].name == ks[j].file;
      }
    }
  }

  lemma NotBothWays(ks: seq<Keyed>, a: string, b: string)
    requires DistinctFiles(ks) && DupePair(a, b) in AllPairs(ks)
    ensures DupePair(b, a) !in AllPairs(ks)
  {
    AllPairsExact(ks, DupePair(a, b));
    AllPairsExact(ks, DupePair(b, a));
    var i: nat, j: nat :| Matches(ks, i, j, DupePair(a, b));
    forall i': nat, j': nat
      ensures !Matches(ks, i', j', DupePair(b, a))
    {
    }
  }

  lemma PairOfPositions(ks: seq<Keyed>, k: Keyed, k': Keyed)
    requires k in ks && k' in ks && k.key == k'.key && k != k'
    ensures DupePair(k.file, k'.file) in AllPairs(ks) || DupePair(k'.file, k.file) in AllPairs(ks)
  {
    var i :| 0 <= i < |ks| && ks[i] == k;
    var j :| 0 <= j < |ks| && ks[j] == k';
    AllPairsExact(ks, DupePair(k.file, k'.file));
    AllPairsExact(ks, DupePair(k'.file, k.file));
    if i < j {
      assert Matches(ks, i, j, DupePair(k.file, k'.file));
    } else {
      assert Matches(ks, j, i, DupePair(k'.file, k.file));
    }
  }

  lemma CollidingPair(entries: seq<Entry>, e: Entry, e': Entry)
    requires DistinctNames(entries) && e in entries && e' in entries && e != e'
    ensures Collide(e, e') <==>
            || DupePair(e.name, e'.name) in AllPairs(KeysIn(entries))
            || DupePair(e'.name, e.name) in AllPairs(KeysIn(entries))
  {
    if Collide(e, e') {
      var k, k' := Keyed(LongKeyOf(e).value, e.name), Keyed(LongKeyOf(e').value, e'.name);
      KeysAre(entries, k);
      KeysAre(entries, k');
      assert e.name != e'.name;
      PairOfPositions(KeysIn(entries), k, k');
    }
    ReportedCollide(entries, e, e');
    ReportedCollide(entries, e', e);
  }

  lemma ReportedCollide(entries: seq<Entry>, e: Entry, e': Entry)
    requires DistinctNames(entries) && e in entries && e' in entries
    ensures DupePair(e.name, e'.name) in AllPairs(KeysIn(entries)) ==> Collide(e, e')
  {
    var ks := KeysIn(entries);
    AllPairsExact(ks, DupePair(e.name, e'.name));
    if DupePair(e.name, e'.name) in AllPairs(ks) {
      var i: nat, j: nat :| Matches(ks, i, j, DupePair(e.name, e'.name));
      KeyOfName(entries, ks[i], e);
      KeyOfName(entries, ks[j], e');
    }
  }

  lemma KeyOfName(entries: seq<Entry>, k: Keyed, e: Entry)
    requires DistinctNames(entries) && k in KeysIn(entries) && e in entries && e.name == k.file
    ensures LongKeyOf(e) == Some(k.key)
  {
    KeysAre(entries, k);
  }

  /** In any report on a directory two files are named together once, in one order or the other, if they
      share a long key, and never otherwise. */
  lemma ReportedOnce(entries: seq<Entry>, r: AuditReport, e: Entry, e': Entry)
    requires IsReportFor(entries, r) && DistinctNames(entries) && e in entries && e' in entries && e != e'
    ensures var m := multiset(r.duplicateCandidates);
      m[DupePair(e.name, e'.name)] + m[DupePair(e'.name, e.name)] == if Collide(e, e') then 1 else 0
  {
    var ps := AllPairs(KeysIn(entries));
    var p, q := DupePair(e.name, e'.name), DupePair(e'.name, e.name);
    KeysDistinct(entries);
    AllPairsOnce(KeysIn(entries), p);
    AllPairsOnce(KeysIn(entries), q);
    CollidingPair(entries, e, e');
    assert p in ps <==> multiset(ps)[p] > 0;
    assert q in ps <==> multiset(ps)[q] > 0;
    if p in ps {
      NotBothWays(KeysIn(entries), e.name, e'.name);
    }
  }

  ghost predicate NoCollision(entries: seq<Entry>) {
    forall i, j :: 0 <= i < j < |entries| ==> !Collide(entries[i], entries[j])
  }

  lemma NoCollisionCons(entries: seq<Entry>)
    requires entries != []
    ensures NoCollision(entries) <==>
              NoCollision(entries[1..])
              && forall j :: 0 <= j < |entries[1..]| ==> !Collide(entries[0], entries[1..][j])
  {
    var rest := entries[1..];
    assert forall j :: 0 < j < |entries| ==> entries[j] == rest[j - 1];
    if NoCollision(entries) {
      forall i, j | 0 <= i < j < |rest|
        ensures !Collide(rest[i], rest[j])
      {
        assert !Collide(entries[i + 1], entries[j + 1]);
      }
      forall j | 0 <= j < |rest|
        ensures !Collide(entries[0], rest[j])
      {
        assert !Collide(entries[0], entries[j + 1]);
      }
    }
  }

  lemma {:induction false} CollisionFree(entries: seq<Entry>)
    ensures AllPairs(KeysIn(entries)) == [] <==> NoCollision(entries)
  {
    if entries != [] {
      var rest := entries[1..];
      CollisionFree(rest);
      KeysCons(entries);
      NoCollisionCons(entries);
      if LongKeyOf(entries[0]).Some? {
        var x := Keyed(LongKeyOf(entries[0]).value, entries[0].name);
        assert KeysIn(entries)[1..] == KeysIn(rest);
        PairsWithEmpty(x, KeysIn(rest));
        KeysMember(rest, x.key);
      } else {
        assert KeysIn(entries) == KeysIn(rest);
      }
    }
  }

  /** The audit lets the daemon skip the agent exactly for a clean root. */
  lemma CleanIff(entries: seq<Entry>, r: AuditReport)
    requires IsReportFor(entries, r) && OneEntryPerName(entries)
    ensures r.TotalIssues() == 0 <==> Clean(entries)
  {
    PerFileClean(entries, r);
    IndexClean(entries, r);
    CollisionFree(entries);
    SameSize(r.duplicateCandidates, AllPairs(KeysIn(entries)));
  }

  // ----- Index lines -----

  /** The target of a printed index line is read back; the title may contain anything but the
      bracket pair that separates it from the target. */
  lemma LinkTargetRecovers(title: string, target: string, rest: string)
    requires !Contains(title, "](") && ')' !in target && EndsWith(target, ".md")
    ensures ExtractTarget(title + ("](" + (target + (")" + rest)))) == Some(target)
  {
    CutPair(title, target + (")" + rest));
    CutChar(target, ')', rest);
  }

  /** The bracket pair at i is the first, and t is what follows it up to the next closing parenthesis. */
  ghost predicate LinkAt(l: string, i: nat, t: string) {
    && FirstAt(l, "](", i) && t + ")" <= l[i + 2..] && ')' !in t
  }

  /** A line's target is what its first bracket pair leads to, provided it ends in .md. */
  lemma ExtractExact(l: string, t: string)
    ensures ExtractTarget(l) == Some(t) <==> (exists i: nat :: LinkAt(l, i, t)) && exists stem :: t == stem + ".md"
  {
    EndsWithIff(t, ".md");
    FindFirst(l, "](");
    if ExtractTarget(l) == Some(t) {
      var i := Find(l, "](").value;
      ExtractLinks(l, i, t);
    }
    if i: nat :| LinkAt(l, i, t) {
      FindIs(l, "](", i);
      var rest := l[i + 2..][|t| + 1..];
      assert l[i + 2..] == t + ([')'] + rest);
      CutChar(t, ')', rest);
    }
  }

  lemma ExtractLinks(l: string, i: nat, t: string)
    requires ExtractTarget(l) == Some(t) && Find(l, "](") == Some(i)
    ensures LinkAt(l, i, t)
  {
    FindFirst(l, "](");
    CutIsBefore(l[i + 2..], ')', t);
  }

  lemma CutIsBefore(s: string, c: char, t: string)
    requires Cut(s, [c]).Some? && Cut(s, [c]).value.0 == t
    ensures t + [c] <= s && c !in t
  {
    FindFirst(s, [c]);
    assert s[|t|..][0] == c;
    if c in t {
      var j :| 0 <= j < |t| && t[j] == c;
      assert s[j..][0] == c;
      assert OccursAt(s, [c], j);
    }
  }

  lemma CutPair(x: string, tail: string)
    requires !Contains(x, "](")
    ensures Cut(x + ("](" + tail), "](") == Some((x, tail))
  {
    var p := "](";
    var s := x + (p + tail);
    FindFirst(x, p);
    assert s[|x|..] == p + tail && s[..|x|] == x && s[|x| + 2..] == tail;
    forall j: nat | j < |x|
      ensures !OccursAt(s, p, j)
    {
      assert s[j..] == x[j..] + (p + tail);
      assert !OccursAt(x, p, j);
      if j + 1 < |x| {
        assert s[j..][..2] == x[j..][..2];
      } else {
        assert s[j..][1] == p[0];
      }
    }
    FindIs(s, p, |x|);
  }

  lemma CutChar(x: string, c: char, tail: string)
    requires c !in x
    ensures Cut(x + ([c] + tail), [c]) == Some((x, tail))
  {
    var s := x + ([c] + tail);
    assert s[|x|..] == [c] + tail && s[..|x|] == x && s[|x| + 1..] == tail;
    forall j: nat | j < |x|
      ensures !OccursAt(s, [c], j)
    {
      assert s[j..][0] == x[j];
    }
    FindIs(s, [c], |x|);
  }
}
