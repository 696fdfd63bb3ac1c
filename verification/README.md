# cmmd: the memory audit and the daemon around it

cmmd looks after directories of markdown files ("memory roots"). Every round it refreshes its
status, looks once at the runtime dry-run flag, and tends each root: if no other process holds the
files and they have rested, a deterministic audit decides whether a costly agent is worth running; if
it is, the root is committed to git, the agent is launched under a time limit, and a row is written
about the outcome. Socket clients ask for rounds and toggle dry-run, signals end it, scrapes read its
counters, and one-shot commands list and truncate the history, restore a root, and end stale sessions.

The project has two halves.

**The audit and the line parsers.** `Frontmatter`, `Wikilinks`, `Descriptions`, `Duplicates` and
`Audit` model `src/audit.rs`: each loop is a method proved against a function, and `AuditProperties`
proves what the report means. `Authmux`, `Lsof`, `Terminal` and `TickId` model the other text formats;
each parser is shown to undo a printer. `Text`, `Numbers` and `Lists` hold the string search, trimming,
line and word splitting, positional notation and permutation facts they share.

**The daemon.** `Tick` models one tick of one root, over the git store of `Git` and the child process
of `AgentWait`, and ends in a contract (`Kept`) that outlives the tick. `Daemon` is the step system of
the main loop, its clients, the timer, the signals and everything else that happens to the roots;
`DaemonProperties`, `DaemonRecords` and `DaemonHistory` prove what holds in every run of it, and `Lives` what
holds across stops and restarts; `MainLoop` is the loop as an object whose every operation is shown to be
steps of that system. `History` and `SelfDelimiting`, `StateFile`, `Toggles`, `Metrics`, `Janitor` and
`WaitForTick` model the history file, the persisted override, concurrent toggles, the counters and their
scrapes, the janitor, and the waiting client; `TickReplies` puts that client beside a run of the daemon.

The environment is a parameter everywhere: what lsof prints, how each git command goes, when the child
exits, which interleaving the scheduler picks, how far a write gets before it fails or the process stops.

## What the proofs found

- The double-space end mark of a `type=` value is dead code: the fields are joined by single spaces
  before the search (`Authmux.DoubleSpaceIsDead`; `src/authmux.rs:89-97`).
- Saving the state is crash-safe exactly when the state file's extension is not `tmp`
  (`StateFile.CrashSafeIff`).
- Two overlapping toggles can leave the running flag and the persisted one different although every save
  succeeds, exactly when the value set last is not the one saved last (`Toggles.OverlapLosesTheToggle`,
  `Toggles.RestartRecoversIff`); if two clients write the temporary file at once, the override can be lost
  (`Toggles.OverlapLosesTheOverride`).
- The unpadded tick id is unambiguous for seconds of one printed width; two different seconds can share an
  id, at some nanoseconds, exactly when one of them is the other followed by hexadecimal digits, the first
  not zero, that leave room for one more digit below 10^9 (`TickId.WidthMatters`).
- `mmctl tick --wait` passes over a fresh tick that finished in the same second as the one before it: every
  wait on such a daemon times out (`WaitForTick.FreshIff`, `WaitForTick.SameSecondMissed`).
- A fresh reply may be the tick of a round that began before the request (`TickReplies.ReplyMayBeOlder`;
  exactly when, `TickReplies.ReplyIsOwnIff`).
- A vacuum that keeps no lines reports 0 kept but leaves a file of one empty line
  (`History.VacuumedLines`).
- A launched agent's tick is recorded as run, with the commit to go back to, exactly when waiting for the
  agent did not fail; if it failed, the snapshot is in the store and the agent was launched, but the tick is
  recorded as one that did not run and without the commit (`Tick.LaunchedRanIff`,
  `Tick.FailedWaitForgetsCommit`, `Tick.CommitIsForgotten`; `src/tick.rs:195-215`, `src/main.rs:788-797`).
- An append that fails partway leaves a piece of a line, and a row appended after it, in the same run or in
  the next one, can be lost although it is counted as written (`DaemonHistory.TornRunLosesRow`,
  `DaemonHistory.TornFileLosesRow`). Whatever file a run finds, the history lists what was found and the
  written rows at every moment exactly when no append does harm (`DaemonHistory.HistoryIsListed`); for an
  encoding that tells where it ends and a file found complete, that depends on how much of each line arrived
  alone (`SelfDelimiting.HarmlessByTook`).
- A restore after a fresh snapshot is not exact where an ignored file that was never tracked is present and
  not in the commit (`Git.SnapshotThenRestore`, `Git.IgnoredFileStays`, `Git.RestoreMayBeInexact`).
- A toggle is answered "persisted" however the save went; the answer is true exactly when the save completed
  or the value was stored already (`StateFile.AnswerIsTrueIff`, `StateFile.AnswerMayBeFalse`;
  `src/ipc.rs:122-135`).

Where a comment of the repository differs from its code, the code is modelled: `commit_snapshot` returns no
hash not only for a clean tree but also when the hash of a fresh commit cannot be read
(`src/history.rs:101-102` against `139-159`).

## Model

| member | source | states |
|---|---|---|
| `Frontmatter.SplitReconstructs` | src/audit.rs:269-275 | on success the two parts with their delimiters are the input again and the first is as short as possible; it fails only where no delimiter follows the opening |
| `Frontmatter.SplitRecovers` | src/audit.rs:269-275 | splitting gives back a printed pair if and only if the first part neither contains the delimiter nor ends in its first four characters |
| `Frontmatter.TrimYamlRecovers` | src/audit.rs:277-284 | padding, quotes and inner padding around a value are all removed and nothing else |
| `Frontmatter.TrimYamlExact` | src/audit.rs:277-284 | a value is v if and only if the text is v in padding, quotes and padding again, none of them longer than it is, and v is not empty; otherwise there is none |
| `Frontmatter.ScanFrontmatter` | src/audit.rs:246-265 | the loop with its metadata flag computes the fold over what each line declares |
| `Frontmatter.KeyOfExact` | src/audit.rs:249-264 | a line declares a metadata section, a name or a description if and only if it begins with that key, and a type if and only if it is blank space and then that key, each with the value of what follows; any other line declares nothing |
| `Frontmatter.ScanMeaning` | src/audit.rs:246-265 | that fold gives each field the value of the last line declaring it, a type line counting only inside an open metadata section |
| `Frontmatter.NameIs` | src/audit.rs:254-256 | the name of a frontmatter is the value of its last line that begins with name:, none without one |
| `Frontmatter.DescriptionIs` | src/audit.rs:257-259 | the description is the value of the last line that begins with description:, none without one |
| `Frontmatter.TypeIs` | src/audit.rs:248-265 | the type is the value of the last type line, however indented, after a metadata: line with no name or description line in between, none without one |
| `Frontmatter.OtherLineIgnored` | src/audit.rs:248-265 | a line that begins with none of the three keys and is no type line may be inserted anywhere in a frontmatter and the file is parsed as before |
| `Frontmatter.ParseFile` | src/audit.rs:231-267 | a file is its split, its scan and its body; without frontmatter the whole content is body |
| `Frontmatter.NoFrontmatter` | src/audit.rs:236-242 | a file without an opening line, or without a closing one after it, declares nothing and is all body |
| `Frontmatter.ParseRecovers` | src/audit.rs:231-284 | any printed blocks in any order before any body are read back, the last block of a kind winning |
| `Frontmatter.CanonicalRecovers` | src/audit.rs:231-284 | name, description, type and body are recovered from a canonical printing in each of the six block orders |
| `Wikilinks.StripInlineCode` | src/audit.rs:334-347 | the loop with its code flag removes exactly what the recursive definition removes |
| `Wikilinks.SpanVanishes` | src/audit.rs:334-347 | a complete inline span leaves no trace where no span is open |
| `Wikilinks.UnclosedSpan` | src/audit.rs:334-347 | a backtick that is never closed takes the rest of the line with it |
| `Wikilinks.CodeIsOdd` | src/audit.rs:334-347 | code is open exactly after an odd number of backticks |
| `Wikilinks.ScanLinks` | src/audit.rs:316-329 | the scan of one line terminates and yields the links of the recursive definition |
| `Wikilinks.NoLink` | src/audit.rs:318-328 | a text without opening brackets, or with none closed after the first, has no link |
| `Wikilinks.FirstLink` | src/audit.rs:318-328 | otherwise the first link is what lies between the first opening and the next closing brackets, trimmed, unless nothing is left of it, and the other links follow after it |
| `Wikilinks.CutDoubled` | src/audit.rs:318-320 | a first-occurrence cut falls right after a text if and only if it neither contains the doubled bracket nor ends in the bracket |
| `Wikilinks.ExtractWikilinks` | src/audit.rs:299-332 | the loop with its fence flag yields the links of the unfenced lines in order |
| `Wikilinks.FenceIff` | src/audit.rs:307-308 | a line is a fence if and only if it is blank space and then three backticks |
| `Wikilinks.FencesAreOdd` | src/audit.rs:305-311 | lines are fenced exactly after an odd number of fences |
| `Wikilinks.ExtractRecovers` | src/audit.rs:299-347 | filler interleaved with bracketed slugs gives back exactly the slugs in order |
| `Wikilinks.FencedBlockIgnored` | src/audit.rs:305-314 | a complete fenced block inserted where no fence is open changes nothing |
| `Wikilinks.UnclosedFence` | src/audit.rs:305-314 | a fence that is never closed silences the rest of the body |
| `Wikilinks.InlineSpanIgnored` | src/audit.rs:315-347 | an inline span inserted after an even number of backticks changes nothing unless a line becomes or stops being a fence |
| `Wikilinks.LinksWellFormed` | src/audit.rs:316-329 | every reported slug is trimmed, non-empty and free of the closing brackets |
| `Descriptions.NormalForm` | src/audit.rs:356-364 | the key is the list of words, lower-cased and without punctuation, joined by single spaces |
| `Descriptions.ToLowercaseAt` | src/audit.rs:357 | lower-casing changes exactly the letters A to Z, each to its own small letter |
| `Descriptions.SameKey` | src/audit.rs:356-364 | two descriptions share a key if and only if those word lists are equal |
| `Descriptions.Idempotent` | src/audit.rs:356-364 | normalising a key changes nothing |
| `Descriptions.NormalizedIsSingleSpaced` | src/audit.rs:356-364 | a key is lower-case letters and digits with single spaces strictly inside |
| `Duplicates.GroupByKey` | src/audit.rs:202-213 | the hash map holds, per key, its files in order |
| `Duplicates.PairUp` | src/audit.rs:216-224 | the nested loops yield every pair of positions of a group |
| `Duplicates.DetectDuplicates` | src/audit.rs:201-226 | whatever order the hash map is iterated in, the pairs are the quadratic ones as a multiset |
| `Duplicates.AllPairsExact` | src/audit.rs:214-226 | exactly the pairs of positions i < j with equal keys are reported |
| `Duplicates.AllPairsOnce` | src/audit.rs:214-226 | with distinct files no pair is reported twice |
| `Duplicates.CountByClass` | src/audit.rs:214-226 | the number of pairs is the sum of k(k-1)/2 over the classes |
| `Duplicates.AllPairsPermuted` | src/audit.rs:201-226 | with the two sides swappable, the pairs do not depend on the order of the files |
| `Audit.ReadFiles` | src/audit.rs:114-142 | the directory loop skips what is no readable markdown file, sets the index aside and parses the rest in order |
| `Audit.CheckFiles` | src/audit.rs:144-168 | the per-file loop finds missing frontmatter, invalid types and missing Why or How lines, and collects the names; what each list holds is stated below |
| `Audit.CheckIndex` | src/audit.rs:170-187 | the index loops find dangling targets and unindexed files |
| `Audit.CheckWikilinks` | src/audit.rs:189-199 | the link loops find the slugs that name no file |
| `Audit.LongKeys` | src/audit.rs:203-213 | descriptions whose key has at least 16 characters are kept with their file |
| `Audit.RunAudit` | src/audit.rs:105-229 | for every enumeration order and hash-map order each list is the declared one, the duplicates as a multiset; a root that is no directory gives an empty report |
| `AuditProperties.OrderIndependent` | src/audit.rs:105-229 | two reports on permuted listings have the same findings as multisets, duplicates up to swapping sides |
| `AuditProperties.TotalIndependent` | src/audit.rs:56-65 | so the number of issues is order-independent |
| `AuditProperties.MemoryFilesAre` | src/audit.rs:120-141 | the files audited are exactly the readable ones whose name ends in .md and is not MEMORY.md |
| `AuditProperties.FilesCounted` | src/audit.rs:142 | and as many as there are such entries |
| `AuditProperties.MissingFrontmatterIff` | src/audit.rs:147-150 | in any report a file lacks frontmatter if and only if it has none or declares no name in it |
| `AuditProperties.InvalidTypeIff` | src/audit.rs:154-160 | a type is reported for a file if and only if the file is named, declares it, and it is none of user, feedback, project and reference |
| `AuditProperties.MissingWhyOrHowIff` | src/audit.rs:161-166 | a file is reported for its structure if and only if it is named, of type feedback or project, and its body holds neither \*\*Why:\*\* nor \*\*Why\*\*:, or neither \*\*How to apply:\*\* nor \*\*How to apply\*\*: |
| `AuditProperties.BrokenIff` | src/audit.rs:189-199 | a link is reported for a file if and only if the file carries it and no named file has that name |
| `AuditProperties.DanglingIff` | src/audit.rs:174-180 | a target is dangling if and only if an index line points at it and no such file is there |
| `AuditProperties.UnindexedIff` | src/audit.rs:133-187 | a file is missing from the index if and only if there is an index and no line of it points at the file, and the index is oversized if and only if it has more than 200 lines |
| `AuditProperties.FindingsCount` | src/audit.rs:56-65 | an empty report has no issue, and one more finding of any kind is one more issue |
| `AuditProperties.PerFileClean` | src/audit.rs:144-199 | no per-file finding if and only if every file is named, of one of the four types if of any, carries both marks in one of their two forms where it must, and every slug names a file |
| `AuditProperties.IndexClean` | src/audit.rs:170-187 | no index finding if and only if its targets are the files on disk and it has at most 200 lines |
| `AuditProperties.CollisionFree` | src/audit.rs:201-226 | no duplicate if and only if no two files share a long key |
| `AuditProperties.ReportedOnce` | src/audit.rs:214-226 | in any report on a directory two files are named together exactly once, in one order or the other, if they share a long key, and otherwise never |
| `AuditProperties.CleanIff` | src/audit.rs:56-65 | the total is zero if and only if the root is clean in all these respects |
| `AuditProperties.LinkTargetRecovers` | src/audit.rs:286-297 | the target of a printed markdown link is read back |
| `AuditProperties.ExtractExact` | src/audit.rs:286-297 | a line's target is what lies between its first bracket pair and the next closing parenthesis, provided it ends in .md; otherwise there is none |
| `Authmux.ParseRow` | src/authmux.rs:69-108 | the loop body on one line, cutting the type field out of the joined text, computes the row function |
| `Authmux.RowLineIs` | src/authmux.rs:69-70 | all leading stars are dropped and then the padding, and nothing else |
| `Authmux.ParseList` | src/authmux.rs:66-111 | a listing is the rows of its lines in order |
| `Authmux.FieldsRecover` | src/authmux.rs:88-107 | cutting out the type field, wherever it stands, gives its words and leaves the other fields undamaged |
| `Authmux.PctAfterIff` | src/authmux.rs:102-115 | a token gives a percentage under a key if and only if it is the key, a number up to 255, and percent signs |
| `Authmux.TokenMeans` | src/authmux.rs:101-107 | a token sets the percentage it is and any other token changes nothing |
| `Authmux.OtherTokenDropped` | src/authmux.rs:101-107 | so a token that is no percentage may stand anywhere among the others |
| `Authmux.RowRecovers` | src/authmux.rs:66-115 | a printed row with any fields in any order is read back |
| `Authmux.ListRecovers` | src/authmux.rs:66-115 | a printed listing is read back and lines that are no account rows are dropped |
| `Authmux.NoDoubleSpace` | src/authmux.rs:89-97 | joined words hold no double space, so that end mark never fires |
| `Authmux.DoubleSpaceIsDead` | src/authmux.rs:68-97 | for every line at all the joined fields hold no double space, and the type value ends where it would end without that mark |
| `Lsof.MemoryHolders` | src/process.rs:91-113 | the line loop with its current pid and name computes the fold over lines |
| `Lsof.HoldersRecovered` | src/process.rs:91-113 | on the printing of any records, whatever other field lines are interspersed, the result is the first holders |
| `Lsof.MalformedIgnored` | src/process.rs:96-111 | a record whose process number cannot be read changes nothing, whatever its other lines are |
| `Lsof.ListedIff` | src/process.rs:91-113 | a process is listed if and only if it is not the daemon and some record of it has a name line |
| `Lsof.HoldersExact` | src/process.rs:91-113 | the holders are the first such record of each process, in order of first occurrence, under that record's name |
| `Lsof.HoldersDistinct` | src/process.rs:105-108 | no process is listed twice and the daemon never |
| `Numbers.ParseIff` | src/process.rs:99 | an unsigned number is read if and only if the text is decimal digits, at least one, after an optional plus sign, of a value that fits |
| `Numbers.ShowTen` | src/history.rs:220-227 | in a printed number the last digit counts ones and the others tens |
| `TickId.SameWidthInjective` | src/history.rs:220-227 | with seconds of one printed width different clock pairs have different ids |
| `TickId.TranscriptsDiffer` | src/tick.rs:176 | for seconds of exactly eight hexadecimal digits different clock pairs write different transcripts |
| `TickId.WidthMatters` | src/history.rs:220-227 | two different seconds collide at some nanosecond counts if and only if one of them is the other times 16^k plus r with 16^(k-1) <= r < 16^k, k at least 1 and 16r below 10^9, the shorter one not zero |
| `History.HistoryFile.Append` | src/history.rs:31-46 | appends one encoded line, or as much of it as the device took, or nothing if the file cannot be opened; success means all of it |
| `History.HistoryFile.Tail` | src/history.rs:50-61 | the newest n parsable records, newest first; none if the file is missing or unreadable |
| `History.HistoryFile.Vacuum` | src/main.rs:319-338 | the last lines are kept and counted; a dry run or a short file changes nothing; a write or rename that fails leaves what the replacement of the file got to |
| `History.AppendsRecovered` | src/history.rs:31-61 | after any run of appends to a file with a complete last line, the records are the earlier ones and the appended ones |
| `History.TornLine` | src/history.rs:43-44 | a write cut short costs at most the record appended next |
| `History.ListingIs` | src/history.rs:31-61 | whatever file was found, after any appends, failed ones included, it lists the records on its complete lines, a row that landed being glued to what was torn before it, and the torn end if that happens to decode |
| `History.ListedThroughoutIff` | src/history.rs:31-61 | whatever file was found, the listing is the records found and exactly the rows reported as written, from the start on and after every append, if and only if each row that landed is readable behind what was torn, nothing torn before it read as a record, and failed appends leave what is torn reading as before |
| `History.NothingTorn` | src/history.rs:38-46 | on a file with a complete last line failed appends that leave nothing behind do no such harm |
| `History.WrittenRowIsLost` | src/history.rs:43-44 | a row reported as written after a torn one is not listed if the two glued together cannot be read |
| `History.FirstRowIsLost` | src/history.rs:38-44 | in a file found torn the first row that lands is not listed if it cannot be read behind what was torn |
| `SelfDelimiting.HarmlessByTook` | src/history.rs:31-61 | for an encoding of which no proper prefix and no two glued pieces can be read, and a file with a complete last line, no append does harm if and only if nothing torn precedes a row that lands and no append on a clean end lacks just its newline |
| `SelfDelimiting.ListedIsRow` | src/history.rs:50-61 | with such an encoding every listed record was found in the file or is the row of some append |
| `History.TailOfAppends` | src/history.rs:50-61 | whatever text was found, the listing after a run of appends is the rows after the first, reversed, continued by the newest of the earlier records and the first row, glued to what was torn |
| `History.WithFirstWhole` | src/history.rs:50-61 | which is that row itself where the file ended with a complete line |
| `History.VacuumedLines` | src/main.rs:325-333 | exactly the kept lines are left, except that keeping none leaves one empty line |
| `History.VacuumedRecords` | src/main.rs:325-333 | exactly the records on the kept lines are left, unparsable lines included in the count |
| `History.VacuumKeepsTail` | src/main.rs:319-338 | a listing after is a prefix of the listing before, and equal if and only if the kept lines hold n records or the dropped ones none |
| `History.VacuumTwice` | src/main.rs:319-338 | a second vacuum changes nothing, even when no line is kept |
| `History.VacuumThenAppend` | src/main.rs:328-333 | records appended after a vacuum are read back |
| `History.ReplacedIsReplacement` | src/main.rs:331-333 | what a stopped vacuum leaves at the path is what replacing a file through a temporary one leaves |
| `Text.LinesOfUnlines` | src/main.rs:323-330 | splitting into lines undoes ending each plain line with a newline |
| `Text.UnlinesOfLines` | src/main.rs:323-330 | and the other way round for terminated text without carriage returns |
| `Text.CrlfLine` | src/audit.rs:135 | one carriage return right before a newline goes with it, and any other stays |
| `Git.Repository.CommitSnapshot` | src/history.rs:103-140 | staging, the emptiness test, the commit and reading its hash, with every failing branch; on success the index is HEAD and holds exactly the present files that were tracked or are not ignored, each as it is on disk |
| `Git.Repository.EnsureGitRepo` | src/history.rs:65-99 | an existing store or a missing directory is left alone; otherwise a store is made with a first snapshot whose failure is ignored |
| `Git.Repository.Restore` | src/history.rs:198-211 | a hard reset to the commit, or an error that changes nothing |
| `Git.Repository.ReadHead` | src/history.rs:142-159 | the commit HEAD names, none while it is unborn or unreadable |
| `Git.SnapshotCaptures` | src/history.rs:101-140 | a successful snapshot changes no file and leaves HEAD with exactly the visible files, commit or no commit; without a store or where staging fails nothing changes |
| `Git.SnapshotTakes` | src/history.rs:103-140 | after a successful snapshot a file is in HEAD if and only if it is present and was tracked or is not ignored, and then as it is on disk; a commit is added if and only if that differs from HEAD before |
| `Git.SnapshotGives` | src/history.rs:103-140 | a snapshot succeeds exactly when the commands it needs do, with the new commit if a file is new, changed or gone and with none otherwise |
| `Git.SnapshotCommitsIff` | src/history.rs:122-139 | a commit is added if and only if the visible files differ from HEAD and every command succeeds |
| `Git.EnsureKeeps` | src/history.rs:65-99 | making sure of a store changes no file and forgets no commit, fails only where making one does, and then or where there is one or no directory changes nothing |
| `Git.EnsureCommits` | src/history.rs:72-98 | a directory without a store gets one, with a first commit of exactly its files that are not ignored, each as it is, if the commands work and there is one |
| `Git.RestoreUndoes` | src/history.rs:198-211 | a restore moves HEAD and the index to the commit, gives back its files and leaves beside them exactly the files untracked at that moment that it does not overwrite |
| `Git.RestoreDone` | src/history.rs:198-211 | a restore is done if and only if there is a store with that commit and the command works, and else changes nothing |
| `Git.RestoreExact` | src/history.rs:198-211 | it gives back exactly the commit's files if and only if no other file was untracked |
| `Git.SnapshotThenRestore` | src/history.rs:103-211 | a snapshot followed by a restore gives back exactly the commit's files if and only if they include every present file that is ignored and was never tracked |
| `Git.IgnoredFileStays` | src/history.rs:198-211 | a present file that is ignored, was never tracked and is not in the commit stays beside the files given back |
| `Git.RestoreMayBeInexact` | src/history.rs:198-211 | such a root exists |
| `AgentWait.EscalationRespected` | src/tick.rs:192-230 | in every run SIGTERM comes only after the limit without exit, SIGKILL only 10 s after a SIGTERM outlived, neither twice nor to a reaped child, and a result only for a reaped child with the status it exited with |
| `AgentWait.TermFollows` | src/tick.rs:195-207 | in any run whose child still runs in the first wait, time and the daemon's own steps alone bring SIGTERM at the limit, or at once if that is past |
| `AgentWait.KillFollows` | src/tick.rs:208-214 | and a child that outlives the 10 s after it gets SIGKILL, at their end or at once if that is past |
| `AgentWait.HungIsSignalled` | src/tick.rs:195-214 | from every reachable state in which the child hangs and the wait has not failed, time and the daemon's own steps alone bring both signals |
| `AgentWait.QuickRun` | src/tick.rs:195-196 | for every limit there is a run that signals nothing and answers with the exit's status |
| `AgentWait.AskedRun` | src/tick.rs:197-209 | for every limit there is a run of SIGTERM at the limit, exit, and the answer with its status |
| `AgentWait.KilledRun` | src/tick.rs:197-215 | for every limit there is a run of SIGTERM at the limit, SIGKILL 10 s later, exit, and the answer with its status |
| `AgentWait.ExitIsAnswered` | src/tick.rs:195-219 | from every state the invariant admits, a child that has exited can be answered for by at most three of the daemon's own next steps |
| `AgentWait.RunKeeps` | src/tick.rs:192-230 | the invariant behind both holds in every reachable state |
| `Tick.CheckGuards` | src/tick.rs:50-97 | the guards in their order, calling the lsof parser and the audit, give the skip or the number of issues |
| `Tick.TakeSnapshot` | src/tick.rs:102-118 | the store is ensured, a snapshot is taken, and HEAD stands in where nothing was staged |
| `Tick.Run` | src/tick.rs:38-231 | the whole tick, from the guards to the outcome, on the root it changes, for every run of the agent's process that is over |
| `Tick.OutcomeShape` | src/tick.rs:26-36 | over all outcomes a reason is present if and only if the tick did not run, and an exit code, issues or a commit imply that it ran, the commit also that it was no dry run and git tracking was on |
| `Tick.SkippedBecause` | src/tick.rs:50-97 | a tick that launches nothing records the first of its reasons: the holders, the number of sessions, the idle time and its minimum, a clean audit, or the failed spawn, and nothing else |
| `Tick.LaunchedOutcome` | src/tick.rs:195-230 | a tick that launches the agent records the status its process ended with and the number of issues of any report on the root, or that waiting failed |
| `Tick.LaunchedRanIff` | src/tick.rs:195-230 | a launched agent's tick is recorded as run if and only if waiting for it did not fail, and the row carries the prepared commit exactly then |
| `Tick.FailedWaitForgetsCommit` | src/tick.rs:195-215 | for any changed root under git, a wait that fails leaves a new commit with the files as they were found, the agent launched, and the tick recorded as not run and without the commit |
| `Tick.CommitIsForgotten` | src/tick.rs:195-215 | with any configuration that tracks, such a tick exists |
| `Tick.RanMeansReaped` | src/tick.rs:195-230 | a tick that ran answers for a reaped process with its exit status |
| `Tick.DryRunHarmless` | src/tick.rs:99-161 | under dry run the store is untouched and no Write or Edit tool and no permission bypass is issued; otherwise a launch has all three |
| `Tick.ToolsAre` | src/tick.rs:142-148 | a dry run may read, search and list; any other run may also write and edit |
| `Tick.OnlyTheAgentEdits` | src/tick.rs:99-171 | up to the spawn no file changes and no commit is forgotten, and a launch changes nothing after it but the files, to those the agent leaves |
| `Tick.SnapshotFaithful` | src/tick.rs:99-120 | the recorded commit holds only files the tick found, each as it was, and every one of them that was tracked or is not ignored, in both the new-commit and the HEAD case; under an earlier store it holds no other |
| `Tick.CommitIsRecorded` | src/tick.rs:99-120 | a tick that ran, was no dry run and tracks records a commit whenever every git command succeeds and some file is not ignored |
| `Tick.LaunchedIff` | src/tick.rs:50-169 | the agent is launched if and only if nobody holds the files, they have rested, the root is a directory that is not clean, and the spawn succeeds |
| `Tick.TickKeeps` | src/tick.rs:38-231 | every tick keeps the contract the daemon relies on |
| `DaemonProperties.NoRequestLost` | src/main.rs:869-878 | in every interleaving a request accepted after the latest round began leaves a permit or a woken waiter until a later round starts or the daemon is down |
| `DaemonProperties.PendingIsServed` | src/main.rs:871-873 | at the next select what is pending starts a round at once and is used up by it |
| `DaemonProperties.RoundsBounded` | src/ipc.rs:116-121 | rounds after the first are never more than the timer expiries and the requests, those still pending included |
| `DaemonProperties.RequestsCoalesce` | src/ipc.rs:116-121 | any number of requests in a row do what one of them does, or two if the loop was registered to be woken; outside the select at most one is ever pending, in it at most two |
| `DaemonProperties.RoundsComplete` | src/main.rs:770-863 | a finished round has one attempt per root in order, and all its rows carry the flag as it stood at the round's one look at it |
| `DaemonProperties.FlagsAreSeen` | src/main.rs:770-771 | what the rounds read is the flag as the toggles alone made it |
| `DaemonProperties.DownBetweenRounds` | src/main.rs:865-878 | the daemon goes down only on a signal at the select or after its only round, never between roots |
| `DaemonRecords.CountersAgree` | src/main.rs:832-841 | in every reachable state each counter is the number of attempts of its kind modulo its width, the seconds are the sum of finish minus start, zero for a clock set back, appends are the rows reported as written, the issues and the time are the latest attempt's, and every attempt ran or was skipped |
| `DaemonRecords.FailuresAtMostRuns` | src/metrics.rs:43-47 | no more ticks failed than ran |
| `DaemonHistory.HistoryFileIs` | src/main.rs:820-835 | in every run the history file is what all the appends, failed ones included, made of the one found, and the rows that landed are those reported as written |
| `DaemonHistory.HistoryIsListed` | src/main.rs:820-835 | at every moment of a run, whatever file it found, the file lists the records found and exactly the rows reported as written so far, if and only if no append did harm |
| `DaemonHistory.NewestAreListed` | src/history.rs:50-61 | and then the newest n written rows are listed first, newest first |
| `DaemonHistory.TornRunLosesRow` | src/history.rs:43-44 | a run with a torn append whose next row, written and counted, is not listed |
| `DaemonHistory.TornFileLosesRow` | src/history.rs:43-44 | a run none of whose appends fails, whose first row, written, is not listed because the file was found torn |
| `DaemonRecords.LastTickIsLatest` | src/main.rs:807-818 | the status shows the latest attempt on the primary root |
| `DaemonRecords.UndoInvariant` | src/history.rs:65-159 | in every reachable state every recorded commit is still stored with the files its agent found |
| `DaemonRecords.UndoWorks` | src/history.rs:198-211 | after any later ticks, edits and git operations that only add, a restore brings back every file the tick found that was tracked or is not ignored, with the contents it had, and beside them only such or other files it found, as they were, and files untracked now |
| `Lives.StopInTick` | src/tick.rs:99-171 | a stop in the middle of a tick leaves the root as an event of the step system could |
| `Lives.LivesFileIs` | src/main.rs:820-835 | across any number of stops and restarts the history file is what all the appends made of the file first found |
| `Lives.LivesUndoable` | src/history.rs:198-211 | and every commit any life recorded is still stored with the files its agent found |
| `Lives.ListedIsUndoable` | src/history.rs:198-211 | so every record the history lists that was not there at first can be undone: restoring its commit brings back every file its tick found that was tracked or is not ignored, with the contents it had |
| `DaemonRecords.UndoExact` | src/history.rs:103-211 | the recorded commit holds those files, and with a snapshot taken first a restore brings back exactly its files if and only if they include every present file that is ignored and was never tracked |
| `DaemonRecords.DryRoundsHarmless` | src/tick.rs:99-161 | every row of a round, finished or in progress, carries the flag the round read, and where that is set the tick adds no commit, records none, and launches nothing with an editing tool or the bypass |
| `MainLoop.Loop.constructor` | src/main.rs:664-718 | a daemon starts with the given flag, shown too, no tick shown, zero counters, no permit, and its first round due |
| `MainLoop.Loop.TickCommand` | src/ipc.rs:116-121 | a tick command is one request step |
| `MainLoop.Loop.DryRunCommand` | src/ipc.rs:122-151 | a dry-run command sets the flag in one toggle step, replaces the state file as far as the save gets, and answers ok and persisted in any case |
| `MainLoop.Loop.ReadDryRun` | src/main.rs:770-771 | the round's look at the flag, which the status shows from then on |
| `MainLoop.Loop.Serve` | src/ipc.rs:103-143 | commands and signals that arrive while a root is tended are their steps in order and leave the round alone |
| `MainLoop.Loop.Publish` | src/main.rs:807-841 | status, history file, counters and root change exactly as one attempt says, its append failing or not |
| `MainLoop.Loop.TendRoot` | src/main.rs:778-841 | one root is ticked and recorded, errors as ticks that did not run: the row has the round's start and flag, the tick's id, the root, and the clock read after the tick as its finish; for the primary root the status shows that; the seconds counter grows by finish minus start |
| `MainLoop.Loop.Round` | src/main.rs:734-867 | a round is one look at the flag, one attempt per root in order, each on the root as the earlier ones left it, each row with its own id and finish and the round's start and flag, and its end, down or at the select, whatever commands and signals arrive meanwhile; nothing else happens |
| `MainLoop.Loop.Select` | src/main.rs:869-878 | the branch taken takes effect if and only if it is ready, and a woken waiter dropped passes its wake-up on |
| `MainLoop.ReachedIsRun` | src/main.rs:725-880 | whatever the object reaches is a run of the step system |
| `Metrics.Metrics.RecordTick` | src/metrics.rs:26-50 | each counter after one tick, wrapping at 64 bits, a failure being an exit code other than zero |
| `Metrics.Metrics.RecordHistoryAppend` | src/metrics.rs:52-54 | only the append counter moves |
| `Metrics.CountersAreCounts` | src/metrics.rs:26-54 | each counter is the number of log entries of its kind modulo its width |
| `Metrics.TicksPartition` | src/metrics.rs:33-47 | ticks are runs plus skips, and failures at most runs if only runs carry codes |
| `Metrics.ScrapeBounded` | src/metrics.rs:81-96 | however the loads of a scrape interleave with the writes, its total exceeds its runs and skips by at most one |
| `Metrics.SlackIsReached` | src/metrics.rs:33-38 | that one is reached |
| `Metrics.WritesRecord` | src/metrics.rs:33-49 | the atomic writes of one tick, all made, are at their width what recording it means, at whatever counts |
| `StateFile.FileSystem.Write` | src/state.rs:28 | a write that stops early leaves a prefix |
| `StateFile.FileSystem.Save` | src/state.rs:22-31 | the temporary file, then the rename, stopping wherever they may |
| `StateFile.FileSystem.PersistDryRun` | src/ipc.rs:145-151 | load, change and save |
| `StateFile.ReplacementAtomic` | src/state.rs:27-29 | a reader finds the old or the new contents wherever a replacement stops, other files are untouched, and the temporary one holds what reached it until the rename removes it |
| `StateFile.CrashSafeIff` | src/state.rs:15-31 | saving leaves the old or the new state at every stop if and only if the path's extension is not the temporary one |
| `StateFile.SaveThenLoad` | src/state.rs:15-31 | a completed save is loaded back |
| `StateFile.AnswerIsTrueIff` | src/ipc.rs:122-135 | what a client is told persists is what a restart would find, if and only if the save completed or the value was stored already, or, where the temporary file is the state file itself, what reached it reads as the value |
| `StateFile.AnswerMayBeFalse` | src/ipc.rs:122-135 | for every save that stops before the rename there is a stored state for which the answer is false |
| `Toggles.RestartRecovers` | src/main.rs:657-658 | with toggles one at a time and successful saves, whenever none is under way a restart begins with the running flag |
| `Toggles.EffectiveIs` | src/main.rs:657-658 | a daemon begins with the persisted override if one can be read and else with what is configured |
| `Toggles.CrashAnyTime` | src/ipc.rs:122-151 | while no two clients write at once, flags set and states loaded at any time and saves failing or not, a crash at any moment leaves the state first found or a value some client set, never the default in its place |
| `Toggles.StepSaves` | src/ipc.rs:145-151 | only the rename changes what would be loaded, to the value its client set |
| `Toggles.OrdersDecide` | src/ipc.rs:122-151 | while no two clients write at once, the running flag is the value set last and the stored one the value saved last |
| `Toggles.RestartRecoversIff` | src/ipc.rs:122-151 | so when idle a restart recovers the running flag if and only if the value set last is the one saved last |
| `Toggles.OverlapLosesTheOverride` | src/ipc.rs:145-151 | two clients writing at once can leave the default in place of an override, and a restart then begins with what is configured |
| `Toggles.OverlapLosesTheToggle` | src/ipc.rs:122-135 | overlapping toggles can end with the running flag off and the persisted one on, every save succeeding |
| `Janitor.ListStale` | src/janitor.rs:96-153 | the loop keeps exactly the processes passing every rule, then sorts them oldest first |
| `Janitor.OptsAre` | src/janitor.rs:78-94 | the options are as asked for, the age in whole seconds and the limit at most 20 |
| `Janitor.StaleIff` | src/janitor.rs:105-149 | a process passes if and only if it is of the daemon's user and one of the six names, is neither the daemon nor its child nor process 0 or 1, has run for the hours asked for, is idle, and has no terminal where that is asked for; its age is now minus its start |
| `Janitor.OldestFirstSorts` | src/janitor.rs:151 | the sort is a permutation in descending age |
| `Janitor.SortIsStable` | src/janitor.rs:151 | processes of one age keep their order |
| `Janitor.ChosenAreOldest` | src/janitor.rs:78-175 | those chosen are distinct, pass the full filter, number the least of the candidates, the limit and 20, and are at least as old as any candidate left out |
| `Janitor.Terminate` | src/janitor.rs:192-218 | one SIGTERM, one to ten probes of which only the last may find it gone, SIGKILL if and only if all ten found it alive |
| `Janitor.Apply` | src/janitor.rs:172-226 | one record per chosen process in order, each with its escalation; under dry run no call is made |
| `Janitor.PerProcess` | src/janitor.rs:179-219 | the calls on one process in the whole run are exactly its own escalation |
| `Janitor.OnlyTheChosen` | src/janitor.rs:172-226 | every chosen process gets one full escalation and no other process any call |
| `Terminal.TtyRecovered` | src/janitor.rs:38-55 | whatever the command's name contains, the terminal number is read from its field and exactly zero means none |
| `Terminal.HasNoTtyIff` | src/janitor.rs:38-55 | a process counts as having no terminal if and only if its line can be read, has a closing parenthesis, and the fifth word after the last one is zero |
| `WaitForTick.CmdTick` | src/bin/mmctl.rs:384-429 | the command ends unreachable, sent, with the first fresh answer, or timed out after the deadline with no fresh answer |
| `WaitForTick.DelaysAre` | src/bin/mmctl.rs:404-413 | the sleeps are 250, 500 and 1000 ms and then 2 s each |
| `WaitForTick.AnsweredIs` | src/bin/mmctl.rs:405-418 | a poll is answered after all the sleeps and all the queries up to it |
| `WaitForTick.WaitIsShort` | src/bin/mmctl.rs:403-413 | at most half as many polls as seconds, and three, ending at most 2 s and one query after the deadline |
| `WaitForTick.PollsReached` | src/bin/mmctl.rs:403-413 | for every positive timeout that many polls can be made |
| `WaitForTick.FreshIff` | src/bin/mmctl.rs:386-427 | with a clock that does not go back an answer is fresh if and only if its record was published after the opening snapshot and in a later second |
| `WaitForTick.SameSecondMissed` | src/bin/mmctl.rs:415-427 | on a daemon whose second tick finishes in the second of the first, shown at every poll, every wait times out |
| `TickReplies.QueryShowsStatus` | src/bin/mmctl.rs:415-423 | beside a run of the daemon, what a query is told is the status at that moment |
| `TickReplies.ReplyIsOwnIff` | src/bin/mmctl.rs:384-427 | the tick a query shows carries its round's start, and that round began after the request if and only if more ticks had been shown than at the request, not counting the one of a round still untended then |
| `TickReplies.FreshReplyIsOwn` | src/bin/mmctl.rs:384-427 | so if no round was untended at the request and nothing was shown since the opening snapshot, every fresh reply is of a round that began after the request |
| `TickReplies.ReplyMayBeOlder` | src/bin/mmctl.rs:384-427 | a run in which a client asks while the primary root is untended and is answered, freshly, by the round already begun |

## Left out

- Text is ASCII: Unicode white space, case mapping and byte lengths of other characters are not modelled.
- The JSON encodings are abstract: records are texts without newlines that decode to themselves, blank space after a value is skipped, and the empty text decodes to nothing (sections 2 and 7 of RFC 8259).
- Git is a store of trees with an index, a worktree and one HEAD; hooks, file modes, submodules, concurrent git processes and the pruning of unreachable commits are not modelled.
- Janitor.Stale: processor shares are real numbers, so an unordered floating-point value, which would pass the comparison in the source, cannot occur.
- Janitor.Truncated: the product of hours and 3600 is exact, not rounded.
- Metrics.Write: the writes seen by a scrape are sequentially consistent, and there the counters do not wrap.
- Metrics.ScrapeBounded: no bound is stated in the other direction, because ticks recorded between two loads can be arbitrarily many, and none on failures for the same reason.
- AgentWait.ExitIsAnswered: says that the daemon can go on, not that it does; nothing bounds how long the agent's output streams stay open after its exit.
- AgentWait.Step: a timer that fires finds the process still running in the same poll, as the runtime's timeout polls the wait first.
- Tick.Run: between the guards and the spawn nothing else edits the root; the directory listing the audit reads is given beside the worktree and not derived from it.
- Tick.Spawned: a working directory, a spawn or an output pipe that cannot be had is one failure of the spawn.
- Tick.Kept: what the agent does to the files is arbitrary, in a dry run too; the contract covers only what it is allowed on its command line.
- DaemonRecords.UndoWorks: other users of a root may edit files and add commits but not remove the store or rewrite it.
- Daemon.Step: the steps of tending one root, from the status to the counters, are one step; a client looking in between is only modelled for the counters.
- MainLoop.Loop.Round: what other programs do to the roots during a round is covered by the step system only.
- DaemonHistory.HistoryIsListed: nothing but the loop writes the history file; a vacuum during a run is not a step.
- Toggles.Step: a client whose temporary file another client has renamed writes on under the old name, not into the renamed file.
- Toggles.RestartRecoversIff: the exact condition is for clients that never write the temporary file at once; of such writes only an example of loss is given.
- StateFile.ReplacementAtomic: about a process that stops, not about a loss of power, as the source does not flush to the device.
- StateFile.Path: a path is given split into stem and extension.
- History.ListedThroughoutIff: which glued texts can be read is left to the encoding.
- SelfDelimiting.Delimits: that the JSON of a record is such an encoding is taken from its grammar, not proved.
- SelfDelimiting.HarmlessByTook: what a file found torn ends with need not be pieces of encodings; `History.ListedThroughoutIff` covers it.
- Lives.Chain: between two lives other users may edit files and add commits; the history file is as it was left.
- WaitForTick.Wait: sleeps take exactly as long as asked.
- TickId.NewTickId: the two readings of the clock are two parameters, as in the source they are taken separately.
- Frontmatter.TrimYamlValue: idempotence is not claimed; it fails for nested quotes separated by spaces.
- The root and the fixed reason text of a report, its one-line summary, and the wording of skip reasons.
- Housekeeping at the start of a round (tmux sessions, orphaned node processes, memory pressure) and the authmux snapshot: readings of the system with a comparison or a fold each.
- The webhook, the metrics and status sockets as byte streams, `/healthz`, logging, and command-line parsing and printing.
- Spawning foreign programs, the agent's prompt, the transcript and the removal of old transcripts.
- Reading the configuration, the single-instance lock, plugin management, and the summary and log listings of git.
