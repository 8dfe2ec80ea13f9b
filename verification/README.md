# Models of nine small programs

Dafny models of the parts of this repository that hold an algorithm or a protocol, with proofs of what each is
for. `dafny verify dfyconfig.toml` checks everything. Loops over local state are methods with loops, objects
whose methods change their fields are classes, interleaved threads are steps of a state machine; each method is
tied to a specification function or relation, and the lemmas are about those.

**svntrace.py** (`Commit*.dfy`). A file `commits.md` is parsed into a preamble, a header and records, extended from
`svn log`, and printed again. `CommitParser` and `CommitPrinter` hold the code; `CommitLines`, `CommitRoundTrip` and
`CommitDocument` show, from single lines up to the whole text, that parsing undoes printing. The message fence is as
short as it can be and still cannot be closed from inside. The program's own claim that parse and print are lossless
byte for byte is false (`RewriteNotLossless`), and so is idempotence of a rewrite (`RewriteNotIdempotent`: a lone
reference `NONE` is kept by the first rewrite and read as "decided: none" by the next). `CommitTheorems` gives the exact
condition of the second; `CommitSpelling` and `CommitCanonical` give that of the first as a test on the lines of the
text, which a caller can make before rewriting. `CommitRegex` compares each recogniser with its regular
expression on every line, and `CommitReading` says what a hand-edited record reads as: continued notes, foreign fields,
fences and lines, CRLF. `CommitImport` and `CommitRuns` are the importer: any number of runs
against a growing log equals one run. `CommitCli` carries this through the disk, where each run parses what the one
before printed -- including a file whose preamble shows no `last_imported` line, so that every run starts from zero --
and says what the file tells in the end, in terms of the log alone (`FileTells`). That existing records are never
modified is false too (`RecordsNotKept`). `CommitKept` says exactly when it holds: line for line if and only if every
record is spelled as the script spells it (`LinesKeptIff`, a test on the old file), and, of what the parser reads
alone, if and only if no lone reference is `?` or `none` (`RecordsKeptIff`). The lines of a record are those from its
head to the next head or the end, blank ones included.

**filewatch.c** (`Glob`, `FilePatterns`, `FileSearch`, `ScanHandshake`, `ScanRhythm`). `match_component` is compared with the declarative glob
relation: it decides it exactly for the patterns that do not end in two stars. The recursive search with `*`, `?`,
`**`, a shared depth budget, deepening and the folder cap is proved sound, complete when nothing truncated it, and
shallowest-first. The handshake between the tick and the scan thread is a state machine; its comment says the
buffers are published safely, and the code does not guarantee that: `TornRun` exhibits a run, `TornIff` and
`AdoptsWhole` say exactly when an adoption is whole. `ScanRhythm` says when scans are started, and with what.

**trunk-per-commit.Jenkinsfile** (`Dispatcher`, `DispatcherProgress`). Steps of the dispatcher, commits and crashes interleave; retention
may drop old builds as long as the newest stamp stays. Nothing is skipped, what may be dispatched twice is
delimited, and a run that ends well has caught up with HEAD.

**comlogger.c** (`OutputBuffer`, `ComLogger`). Stamping is independent of chunking; every line carries one stamp;
nothing is lost or repeated from wire to file; replay gives back a recording; the wrapping watchdog clock never
fires early exactly for timeouts up to half its range.

**monitor.py** (`SerialMonitor`). Logged lines and literal matches depend on the stream only, not on its datagrams.

**jira_comment.py** (`JiraComment`, `JiraForeign`). Text to document and back keeps the words of every text, so re-running adds at
most one comment, and none beside an equal one from another hand.

**svn_changelog.py** (`Changelog`). The file table is the inverse of the commit table; truncated cells say so exactly.

**psu.c** (`PsuSwitch`, `PsuService`). Clicks, worker and ticks as interleaved steps, over a history of events.

**genlist.h** (`GenList`). The heap list refines a sequence; the ghost argument `nodes` lists its nodes.

`Text` and `Wrappers` are shared. Regular expressions are hand-written recognisers, exactly as wide as the
expressions on ASCII text.

What the outside world decides is a parameter: the log, the stream and its cutting, the file system, the fate of
each flush and each allocation, the moments at which a scan is aborted, the time. Three words recur. A dictionary is *printable* when its fields are stripped single lines, its
messages have no CR and no outer line breaks, its references have no commas, its revisions are distinct and its
header holds every key the preamble shows; `ParsedPrintable` shows that all the parser accepts is printable. Its
*normal form* is what it reads back as: newest first, refreshed preamble, header cut to the keys shown, a lone
reference `?` or `none` read as undecided or empty. A reference is *shouted* when it spells `none` in other letters.

## Model

| member | source | states |
|---|---|---|
| CommitParser.ReadFence | tmp/jira-tortoise/svntrace.py:170-182 | the loop returns the lines up to the first one that closes a fence of this length and the index behind it, or the unterminated error when no such line is left (FenceIsShortest says which lengths close where they should) |
| CommitParser.ParseFiles | tmp/jira-tortoise/svntrace.py:195-208 | the loop fills list and counter as the line-by-line specification does; ListingRead shows that specification undoes the printed listing |
| CommitParser.ReadRecord | tmp/jira-tortoise/svntrace.py:250-290 | the inner loop, with its fences, fields and note continuation, agrees with the recursive specification that RecordRead inverts, errors included |
| CommitParser.ReadRecords | tmp/jira-tortoise/svntrace.py:244-290 | the outer loop yields the records in file order, or the error for a repeated revision or the first broken record |
| CommitParser.CommitsToDict | tmp/jira-tortoise/svntrace.py:219-293 | the whole parser, as it runs, computes the specification that ParsePrint, RoundTrip and RewriteIdempotentIff are about |
| CommitPrinter.FenceFor | tmp/jira-tortoise/svntrace.py:185-192 | the scan of a message's lines yields the fence whose length FenceIsShortest proves minimal |
| CommitPrinter.DictToCommits | tmp/jira-tortoise/svntrace.py:331-353 | the printer, as it runs, computes the text that ParsePrint reads back |
| CommitLines.HeadRecognised | tmp/jira-tortoise/svntrace.py:73 | `## r<n>` is recognised as the head of exactly revision n |
| CommitLines.FieldRecognised | tmp/jira-tortoise/svntrace.py:300-303 | a printed field line is read as that key and value and as nothing else, whatever the value |
| CommitLines.FenceRecognised | tmp/jira-tortoise/svntrace.py:318-326 | a printed opening fence is read with its own length and tag and never as a record head |
| CommitLines.FileRecognised | tmp/jira-tortoise/svntrace.py:323 | a printed path line is read as that action and path and never as a truncation line or a blank |
| CommitLines.TruncRecognised | tmp/jira-tortoise/svntrace.py:325 | the printed `more paths not listed` line gives its number back |
| CommitLines.RefsRecognised | tmp/jira-tortoise/svntrace.py:153-167 | reading a printed reference list gives the list, absent and empty kept apart, save for the lone `?` and the lone `none` in any letters |
| CommitRegex.HeadIff | tmp/jira-tortoise/svntrace.py:73 | a line is a head of revision n if and only if it is `##`, white space, `r`, digits of value n and perhaps more white space, as the expression says |
| CommitRegex.FieldIff | tmp/jira-tortoise/svntrace.py:74 | a line is a field if and only if it has the expression's form; the value is the stripped rest |
| CommitRegex.FenceIff | tmp/jira-tortoise/svntrace.py:75 | a line opens a fence if and only if it has the expression's form, with exactly that many tildes and that tag |
| CommitRegex.ClosesIff | tmp/jira-tortoise/svntrace.py:176-179 | a line closes a fence of length n if and only if it is at least n tildes, one at the least, and white space |
| CommitRegex.PathIff | tmp/jira-tortoise/svntrace.py:76 | a line names a path if and only if it has the expression's form; the lazy group is the stripped rest, or the last blank of a blank one |
| CommitRegex.CountIff | tmp/jira-tortoise/svntrace.py:77 | a line tells how many paths are left out if and only if it has the expression's form |
| CommitRegex.MentionsIff | tmp/jira-tortoise/svntrace.py:78 | a text mentions a key if and only if a key of the expression's form stands in it with no word character touching it |
| CommitRegex.StripIff | tmp/jira-tortoise/svntrace.py:154 | stripping takes white space off both ends and nothing else |
| CommitRegex.TrimExact | tmp/jira-tortoise/svntrace.py:262-263 | a message loses its outer line breaks and nothing else |
| CommitRegex.ListedPieces | tmp/jira-tortoise/svntrace.py:159 | a reference list is its pieces between commas, in order, stripped, blank ones left out |
| CommitRegex.RefsMean | tmp/jira-tortoise/svntrace.py:153-159 | a reference field is undecided, decided empty, or that list, for every value |
| CommitRegex.IntMeans | tmp/jira-tortoise/svntrace.py:235-240 | blanks around a header integer and its sign are read as Python reads them |
| CommitRegex.IntUnderscore | tmp/jira-tortoise/svntrace.py:235-240 | an underscore between digits is passed over |
| CommitRegex.IntRefused | tmp/jira-tortoise/svntrace.py:235-240 | any other character in it is an error |
| CommitReading.NoteJoined | tmp/jira-tortoise/svntrace.py:275-288 | a note line and indented lines after it read as one note line with the stripped pieces joined by blanks |
| CommitReading.NoteInRecord | tmp/jira-tortoise/svntrace.py:250-288 | the same from the head of the record on, whatever fields, fences and lines come before and after |
| CommitReading.NoteRead | tmp/jira-tortoise/svntrace.py:219-293 | and for a whole file of one such record |
| CommitReading.IgnoredAfterField | tmp/jira-tortoise/svntrace.py:275-288 | indented lines after any other field change nothing |
| CommitReading.IgnoredAfterFence | tmp/jira-tortoise/svntrace.py:254-269 | nor do they after a fence |
| CommitReading.ForeignFence | tmp/jira-tortoise/svntrace.py:254-269 | a fence with another tag is passed over, whatever it holds |
| CommitReading.ForeignField | tmp/jira-tortoise/svntrace.py:271-283 | a field with another key is passed over |
| CommitReading.ForeignLine | tmp/jira-tortoise/svntrace.py:285-288 | a line of no kind that is not indented is passed over, wherever it stands |
| CommitReading.OddCount | tmp/jira-tortoise/svntrace.py:276-277 | a file count that is not a number reads as 0 |
| CommitReading.OpenFence | tmp/jira-tortoise/svntrace.py:170-182 | a fence that nothing closes is an error |
| CommitReading.CrLfAlike | tmp/jira-tortoise/svntrace.py:223 | a file with CRLF line breaks reads as the same lines with LF |
| CommitRoundTrip.FenceIsShortest | tmp/jira-tortoise/svntrace.py:170-192 | a fence of n >= 3 tildes protects a message exactly when n is at least what `_fence_for` chooses: it is safe for every message and no shorter one is |
| CommitRoundTrip.MessageRead | tmp/jira-tortoise/svntrace.py:262-266 | any message without CR and outer newlines comes back verbatim, lines that look like record heads, fields or fences included |
| CommitRoundTrip.ListingRead | tmp/jira-tortoise/svntrace.py:195-208 | parsing the printed listing gives its paths, in order, and its count of omitted ones |
| CommitRoundTrip.RecordRead | tmp/jira-tortoise/svntrace.py:306-328 | reading a printed record from its head on gives the record and stops exactly at the next head or the end |
| CommitRoundTrip.RecordsRead | tmp/jira-tortoise/svntrace.py:244-290 | the lines of any list of printed records with distinct revisions parse to that list |
| CommitDocument.NewestFirstDescending | tmp/jira-tortoise/svntrace.py:292 | sorting records of distinct revisions leaves them strictly newest first |
| CommitDocument.NewestFirstFixed | tmp/jira-tortoise/svntrace.py:292 | sorting leaves records that are newest first as they are |
| CommitDocument.IntRecognised | tmp/jira-tortoise/svntrace.py:235-240 | a printed integer header value reads back as that integer, signs included |
| CommitDocument.HeaderReadBack | tmp/jira-tortoise/svntrace.py:229-242 | a preamble refreshed from a header reads back as that header cut to the keys the preamble shows, duplicate lines included |
| CommitDocument.PrintedLines | tmp/jira-tortoise/svntrace.py:331-353 | splitting the printed text gives the trimmed preamble, the gap and the record lines, with no line merged or cut |
| CommitDocument.ParsePrint | tmp/jira-tortoise/svntrace.py:331-353 | for every printable dictionary, parsing the printed text succeeds and gives its normal form |
| CommitClean.ParsedPrintable | tmp/jira-tortoise/svntrace.py:219-293 | whatever the parser accepts is printable, newest first, with exactly the header keys its preamble shows |
| CommitTheorems.RoundTrip | tmp/jira-tortoise/svntrace.py:331-353 | after printing and parsing, the records are the same if and only if they were newest first and no lone reference spells `?` or `none`; the header is the same if and only if the preamble shows every key; the preamble is the refreshed one up to trailing blank lines |
| CommitTheorems.ReprintIff | tmp/jira-tortoise/svntrace.py:331-353 | printing what a printed text parses to gives the same text if and only if no record's lone reference spells `none` in other letters |
| CommitTheorems.RewriteAccepted | tmp/jira-tortoise/svntrace.py:331-353 | every accepted text rewrites to an accepted text |
| CommitTheorems.RewriteIdempotentIff | tmp/jira-tortoise/svntrace.py:219-353 | for every accepted text, rewriting twice equals rewriting once if and only if no parsed record's lone reference spells `none` in other letters |
| CommitCanonical.LosslessIff | tmp/jira-tortoise/svntrace.py:25-26 | a text is accepted and survives loading and saving byte for byte if and only if it is canonical, a test on its lines: LF only, each header line spelled `- key: value` with agreeing lines and plain integers, the exact blank lines, falling revisions, nine head lines in one spelling, a shortest message fence with no outer break, single-spaced paths, no lone reference that is `none` in other letters |
| CommitCanonical.PrintedCanonical | tmp/jira-tortoise/svntrace.py:331-353 | whatever is printed passes that test, unless a lone reference is `none` in other letters |
| CommitCanonical.CanonicalPrinted | tmp/jira-tortoise/svntrace.py:219-293 | a text that passes it is the print of the dictionary its lines spell |
| CommitCanonical.RecordShown | tmp/jira-tortoise/svntrace.py:306-328 | the lines of a printed record are spelled as the test asks, up to its last line and no further |
| CommitCanonical.RecordFromRead | tmp/jira-tortoise/svntrace.py:244-290 | lines spelled as the test asks are the printed lines of one good record |
| CommitTheorems.RewriteNotLossless | tmp/jira-tortoise/svntrace.py:25-26 | a single line break is accepted and does not survive, so the documented losslessness fails |
| CommitTheorems.RewriteNotIdempotent | tmp/jira-tortoise/svntrace.py:153-167 | `- jira: NONE,` is changed by the second rewrite after the first |
| CommitTheorems.SaveLoad | tmp/jira-tortoise/svntrace.py:361-372 | loading what was saved gives the normal form, and the printed text is never taken for a path |
| CommitImport.IssueKeysExact | tmp/jira-tortoise/svntrace.py:454-458 | the keys kept from a message are exactly those occurring in it as whole keys, none twice |
| CommitImport.FileCountIff | tmp/jira-tortoise/svntrace.py:450-452 | listed plus omitted paths equal the file count if and only if the path limit is not negative |
| CommitImport.Document.constructor | tmp/jira-tortoise/svntrace.py:421-469 | the object holds the given dictionary |
| CommitImport.Document.AppendNew | tmp/jira-tortoise/svntrace.py:442-461 | the loop appends to the records exactly the list it returns, which AddedMembers characterises |
| CommitImport.Document.UpdateFromSvn | tmp/jira-tortoise/svntrace.py:379-469 | the dictionary changed in place is the one UpdateExact characterises; without a URL, with a bad integer, or with a watermark below -1, from which Subversion refuses to list, nothing changes and the error is reported |
| CommitRuns.AddedMembers | tmp/jira-tortoise/svntrace.py:442-461 | exactly the entries whose revision was not stored become records |
| CommitRuns.SecondRunAdds | tmp/jira-tortoise/svntrace.py:421-461 | what a first run adds and what a second run against a longer log adds on top is what one run against the longer log adds, from any watermark in between |
| CommitRuns.UpdateExact | tmp/jira-tortoise/svntrace.py:421-469 | after a run the records are strictly newest first; every entry past the watermark has one; a record is there if and only if it was or is the import of a new entry; the watermark is the greatest revision seen and never falls |
| CommitRuns.TwoRuns | tmp/jira-tortoise/svntrace.py:421-469 | a run after a run leaves the whole dictionary, header included, that one run against the later log leaves |
| CommitRuns.ManyRunsAreOne | tmp/jira-tortoise/svntrace.py:421-469 | any number of runs against a growing log equals one run against the last log |
| CommitRuns.HeaderOfRun | tmp/jira-tortoise/svntrace.py:464-467 | a run changes three header keys only: the repository asked, the time of the run, and the greatest revision listed, the last left alone when nothing was listed |
| CommitRuns.Defaults | tmp/jira-tortoise/svntrace.py:436-440 | without header values a run starts at revision 1 and lists ten paths |
| CommitRuns.NegativeLimit | tmp/jira-tortoise/svntrace.py:451 | a negative path limit cuts that many paths off the end, as slicing does |
| CommitCli.UpdatedPrintable | tmp/jira-tortoise/svntrace.py:421-469 | importing keeps a dictionary printable, so the saved file can always be read again |
| CommitCli.Invoke | tmp/jira-tortoise/svntrace.py:476-491 | loading, updating in place and saving leave the disk, or report the error with the disk untouched, as the theorems below assume; a missing repository, a bad integer and an unreadable file are told apart |
| CommitCli.LoadedPrintable | tmp/jira-tortoise/svntrace.py:361-367 | whatever can be loaded is printable, newest first, with exactly the header keys its preamble shows |
| CommitCli.TargetStands | tmp/jira-tortoise/svntrace.py:432-434 | called again with the same URL, or again without one, the next run works on the repository of this one |
| CommitCli.FileTells | tmp/jira-tortoise/svntrace.py:421-491 | after an invocation the file, read back, is newest first and holds: for every new log entry a record with its revision, author, date, verbatim message, file count, first paths and exactly the mentioned issue keys; every old record as it reads back (RecordsKeptIff says when that is unchanged); and nothing else |
| CommitKept.LinesKeptIff | tmp/jira-tortoise/svntrace.py:421-483 | every existing record stands in the file after a run, line for line from its head to the next, as the usage text promises, if and only if each is spelled as the script spells records, a test on the lines of the old file; a field or fence of one's own, a continued note, free text or a second blank line fails it |
| CommitKept.BlockKeptIff | tmp/jira-tortoise/svntrace.py:250-328 | printing a record that was read gives back the lines it was read from if and only if they are spelled so |
| CommitKept.PrintBlocks | tmp/jira-tortoise/svntrace.py:331-353 | the records that stand in a printed text, line for line, are exactly the printed lines of its records |
| CommitKept.RecordsKeptIff | tmp/jira-tortoise/svntrace.py:421-483 | every existing record reads after a run as it read before if and only if none has a lone reference that is `?` or `none` in any letters; this says nothing of lines the parser drops |
| CommitKept.RecordsNotKept | tmp/jira-tortoise/svntrace.py:10-12 | the promise fails: an import of nothing turns `- jira: NONE,` into decided-none and `- jira: ?,` into undecided, and deletes the line `- reviewer: bob` although the record reads as before |
| CommitCli.StillAnswers | tmp/jira-tortoise/svntrace.py:440 | a stored run leaves a watermark from which the next run can list the log |
| CommitCli.CliTwice | tmp/jira-tortoise/svntrace.py:476-491 | two invocations on the file leave one that reads as after a single invocation against the later log, even when its preamble shows no watermark line |
| CommitCli.CliRunsAreOne | tmp/jira-tortoise/svntrace.py:476-491 | the same for any number of invocations, parsing and printing between each two |
| CommitCli.CliTwiceSameIff | tmp/jira-tortoise/svntrace.py:476-491 | two invocations leave the very bytes of one if and only if no lone reference in the old file is `none` in other letters |
| CommitCli.CliRunsSameIff | tmp/jira-tortoise/svntrace.py:476-491 | the same for any number of invocations from two on |
| Glob.MatchComponent | tmp/trayctl/filewatch.c:93-114 | the pointer loop with its recursive restarts decides the acceptance relation that ExactIff compares with glob matching |
| Glob.AcceptsSound | tmp/trayctl/filewatch.c:93-114 | whatever is accepted matches the glob, for every pattern |
| Glob.AcceptsComplete | tmp/trayctl/filewatch.c:93-114 | whatever matches is accepted, for every pattern that does not end in two stars |
| Glob.ExactIff | tmp/trayctl/filewatch.c:89-114 | acceptance and glob matching agree on all names if and only if the pattern does not end in two stars |
| Glob.AcceptsCase | tmp/trayctl/filewatch.c:106-108 | the case of letters, 32 apart, makes no difference to what is accepted, in the pattern or in the name |
| Glob.MatchesCase | tmp/trayctl/filewatch.c:89-92 | nor to what matches |
| Glob.LiteralIff | tmp/trayctl/filewatch.c:93-114 | a pattern without wildcards is accepted exactly for its own letters in either case |
| Glob.MarksIff | tmp/trayctl/filewatch.c:93-114 | question marks are accepted exactly for names of their number |
| Glob.StarIff | tmp/trayctl/filewatch.c:89-92 | a star matches any beginning of a name |
| Glob.PieceIff | tmp/trayctl/filewatch.c:89-92 | a piece without stars matches as many characters as it has, the rest of the pattern the rest |
| FilePatterns.ComponentsStep | tmp/trayctl/filewatch.c:189-198 | a folder component ends at a separator, doubled separators are skipped, an overlong one spoils the pattern |
| FilePatterns.ComponentsEnd | tmp/trayctl/filewatch.c:189-198 | a pattern that ends in a separator names no file, one without a separator is a file name |
| FilePatterns.BaseIs | tmp/trayctl/filewatch.c:225-245 | the literal base is everything up to the last separator before the first wildcard |
| FilePatterns.EntersFolders | tmp/trayctl/filewatch.c:147-173 | only folders are gone into, not junctions, not the two dots |
| FileSearch.Scan.Aborting | tmp/trayctl/filewatch.c:125-173 | an abort is seen exactly when some look so far has found the flag set |
| FileSearch.Scan.MatchFile | tmp/trayctl/filewatch.c:125-143 | a file is found if and only if some file in the folder fits the last component; the one found is the first listed |
| FileSearch.Scan.Descend | tmp/trayctl/filewatch.c:147-173 | a hit lies below an enterable folder whose name fits; no hit in a whole scan means none lies below any such folder; once the cap is set there is no hit |
| FileSearch.Scan.Search | tmp/trayctl/filewatch.c:180-213 | within a shared budget for all `**`: a hit is a match of all the components, and no hit in a whole scan means there is none; it terminates on budget and pattern length |
| FileSearch.Scan.SearchDeep | tmp/trayctl/filewatch.c:200-206 | a `**` is tried as no folder, then as one and `**` again for one level of budget; what Search promises |
| FileSearch.Scan.FindBelow | tmp/trayctl/filewatch.c:249-256 | the passes: a hit has the fewest levels of all matches, no hit in a whole scan means there is none within the depth, and a scan is capped only if its passes can go into more folders than the cap |
| FileSearch.Scan.FindMatch | tmp/trayctl/filewatch.c:224-257 | a hit is a match with the fewest folder levels of all matches at any depth; no hit in an uncapped, unaborted scan means no match within the depth; both also hold with the wildcards' declared meaning where no folder component ends in two stars; it is aborted only if a look finds the flag set and capped only if the passes can go into more folders than the cap; folders entered never exceed the cap over all passes, and a capped scan never reports a hit; the file found is the one listed first, of those that fit, in its folder; a literal path is found exactly when it is a file |
| FileSearch.HitIsWanted | tmp/trayctl/filewatch.c:89-213 | whatever the code's matching accepts is what the glob asks for, and conversely for patterns none of whose folder components ends in two stars |
| FileSearch.LevelsAre | tmp/trayctl/filewatch.c:175-213 | the folder levels of a match are what its `**` components stand for plus a number fixed by the pattern, so a smaller budget means a shallower file |
| FileSearch.Shallowest | tmp/trayctl/filewatch.c:215-257 | a hit at a budget below which nothing matches has the fewest levels of all matches |
| FileSearch.DeepNothing | tmp/trayctl/filewatch.c:200-206 | nothing below `**` follows from nothing here and nothing below each subfolder with one less to spend |
| FileSearch.ShallowExact | tmp/trayctl/filewatch.c:249-251 | without two stars in the pattern the budget does not matter, so one pass is enough |
| ScanHandshake.OneWorker | tmp/trayctl/filewatch.c:433-449 | in every interleaving at most one scan thread exists, and the pattern and depth it reads are those it was created with |
| ScanHandshake.SnapshotStands | tmp/trayctl/filewatch.c:69-85 | no step, Reload included, changes the snapshot under a worker that stays alive |
| ScanHandshake.PublishesWhatItSaw | tmp/trayctl/filewatch.c:413-427 | in every run a scan publishes exactly the path, detail and truncation it saw itself, nothing of the scan before it |
| ScanHandshake.TornIff | tmp/trayctl/filewatch.c:453-480 | while a result is adopted, a worker is overwriting it if and only if that worker's scan began while the result was waiting |
| ScanHandshake.AdoptsWhole | tmp/trayctl/filewatch.c:413-480 | in runs where no scan begins on a waiting result, every adoption shows one finished scan, whole, the last to finish |
| ScanHandshake.TornRun | tmp/trayctl/filewatch.c:516-526 | a run of ticks and worker steps alone whose display is a mixture no scan produced: scan_start does not imply the side condition, against the comment at lines 69-75 |
| ScanRhythm.TicksToClaims | tmp/trayctl/filewatch.c:516-526 | ticks turn into claims, `interval` to one, and none is lost, whatever the workers do meanwhile |
| ScanRhythm.EveryNth | tmp/trayctl/filewatch.c:516-526 | enabled and undisturbed, exactly every `interval`-th tick claims a scan |
| ScanRhythm.StartsAsConfigured | tmp/trayctl/filewatch.c:433-449 | a scan thread is created with the path and depth configured at that moment |
| ScanRhythm.ClaimStarts | tmp/trayctl/filewatch.c:433-449 | a claim with no scan under way starts one |
| ScanRhythm.ScanCompletes | tmp/trayctl/filewatch.c:413-427 | a scan that goes on alone publishes path, detail and truncation and makes room for the next |
| ScanRhythm.TickAdopts | tmp/trayctl/filewatch.c:453-480 | a tick of an enabled watch shows the waiting result, whole |
| ScanRhythm.OffStaysDark | tmp/trayctl/filewatch.c:516-571 | switching the watch off clears the alert and no late result brings it back |
| ScanRhythm.CommandsClaim | tmp/trayctl/filewatch.c:555-581 | switching on, refreshing and reloading begin a fresh count and claim a scan at once |
| Dispatcher.StampReadBack | tmp/trunk-per-commit.Jenkinsfile:43-44 | a written stamp is read back as its revision |
| Dispatcher.ReadLastRev | tmp/trunk-per-commit.Jenkinsfile:38-49 | the walk back returns the newest stamp in the history, or nothing |
| Dispatcher.ParseLog | tmp/trunk-per-commit.Jenkinsfile:111-118 | the loop keeps exactly the lines that LogReadBack shows to be the entries |
| Dispatcher.EntryRecognised | tmp/trunk-per-commit.Jenkinsfile:114-115 | a log header line yields its revision and author |
| Dispatcher.LogReadBack | tmp/trunk-per-commit.Jenkinsfile:108-118 | a whole log, each entry with its own date, yields its entries, all, in order, and nothing from the dashed lines |
| Dispatcher.RevRecognised | tmp/trunk-per-commit.Jenkinsfile:114-115 | the revision of a header line comes through whatever the author is called, bars included |
| Dispatcher.RevsReadBack | tmp/trunk-per-commit.Jenkinsfile:108-118 | so a whole log yields all its revisions, in order, for every author text |
| Dispatcher.ToDispatchExact | tmp/trunk-per-commit.Jenkinsfile:86-90 | parsed and sorted, the log text names exactly the trunk revisions it covers; this is what the state machine dispatches |
| Dispatcher.NeverSkips | tmp/trunk-per-commit.Jenkinsfile:61-103 | in every run with crashes anywhere and HEAD moving at any time, every trunk revision above the bootstrap and not above the newest stamp has been dispatched |
| Dispatcher.StampsRise | tmp/trunk-per-commit.Jenkinsfile:69-101 | stamps never fall and never pass HEAD, the stamp read is the newest ever set, and each run dispatches in rising order |
| Dispatcher.DispatchedAgain | tmp/trunk-per-commit.Jenkinsfile:86-101 | a revision dispatched by two runs either crashed unstamped in the first or came in between that run's two queries |
| Dispatcher.DispatchesExactly | tmp/trunk-per-commit.Jenkinsfile:83-101 | a stamped run with news dispatched exactly the trunk revisions above the stamp it read that its log query could list |
| DispatcherProgress.KeepsUp | tmp/trunk-per-commit.Jenkinsfile:61-103 | whatever happens meanwhile, a run that ends with a stamp leaves one of at least the HEAD at its start, and has dispatched every trunk revision from the stamp it read up to there |
| DispatcherProgress.StampIsHead | tmp/trunk-per-commit.Jenkinsfile:64-101 | the stamp a run leaves, at the bootstrap too, is the HEAD at the moment it asked for it, or the one it read if that is greater |
| DispatcherProgress.UndisturbedRun | tmp/trunk-per-commit.Jenkinsfile:61-103 | a run that nothing disturbs, begun between any two runs, ends with HEAD as its stamp and has dispatched exactly the trunk revisions above the one before |
| DispatcherProgress.CrashReplays | tmp/trunk-per-commit.Jenkinsfile:98-101 | a run that dies after its first dispatch makes the next one dispatch that revision again |
| DispatcherProgress.LateCommitReplays | tmp/trunk-per-commit.Jenkinsfile:64-90 | so does a revision that comes in between the two queries of a run with news |
| DispatcherProgress.StampInIff | tmp/trunk-per-commit.Jenkinsfile:43-44 | the first `lastRev=` with digits anywhere in a description counts, with all its digits; without one there is no stamp |
| DispatcherProgress.LogLineIff | tmp/trunk-per-commit.Jenkinsfile:114-115 | a log line is an entry if and only if it has the expression's form; the author is the trimmed group |
| OutputBuffer.StampedConcat | comlogger/comlogger.c:115-135 | stamping a concatenation is stamping its parts, the line state carried across |
| OutputBuffer.ChunkingIrrelevant | comlogger/comlogger.c:108-135 | with one stamp, any cutting into chunks gives what the whole stream in one chunk gives |
| OutputBuffer.OneStampALine | comlogger/comlogger.c:108-135 | with a stamp per chunk the output is the stream's lines, each with one stamp in front, that of the chunk holding its first byte |
| OutputBuffer.ErasedIsInput | comlogger/comlogger.c:108-135 | the same lines without their stamps are the bytes that came in |
| OutputBuffer.OBuf.constructor | comlogger/comlogger.c:83-87 | the buffer begins empty and at a line start, before any allocation |
| OutputBuffer.OBuf.Allocate | comlogger/comlogger.c:94-95 | one more allocation is asked for and succeeds as it is granted |
| OutputBuffer.OBuf.Reserve | comlogger/comlogger.c:89-98 | contents unchanged and room for the extra bytes if and only if the room was there or the one allocation it takes is granted; otherwise nothing changed |
| OutputBuffer.OBuf.Put | comlogger/comlogger.c:100-106 | the bytes are appended, unless an allocation is refused, and then nothing is |
| OutputBuffer.OBuf.AppendLine | comlogger/comlogger.c:121-134 | one line, or what the chunk holds of it, is appended behind its stamp; the line state says whether it ended |
| OutputBuffer.OBuf.AppendStamped | comlogger/comlogger.c:121-134 | the two loops append what the per-byte definition of stamping gives and leave its line state; on failure, which is exactly when an allocation is refused, only a prefix of it |
| OutputBuffer.OBuf.AppendChunk | comlogger/comlogger.c:115-135 | the same with and without a stamp |
| ComLogger.Logger.constructor | comlogger/comlogger.c:573-578 | a fresh logger with an empty buffer on the given file |
| ComLogger.Logger.FlushToFile | comlogger/comlogger.c:295-319 | file plus buffer is the same before and after; on failure neither changes |
| ComLogger.Logger.TakeChunk | comlogger/comlogger.c:594-603 | a chunk off the wire keeps file, buffer, recording and what was heard in step |
| ComLogger.Logger.Flush | comlogger/comlogger.c:604-629 | a flush at any moment, successful or not, keeps them in step |
| ComLogger.Logger.Capture | comlogger/comlogger.c:578-637 | for every interleaving of reads, flushes, failed opens and reconnects: the exit code is 4 if and only if an allocation was refused, and otherwise the one the events call for; then what was in the file plus the assembled stream is what is in the file plus what is left in the buffer, and the recording holds the raw bytes |
| ComLogger.HearsAll | comlogger/comlogger.c:578-626 | while nobody stops the loop and the port holds, everything delivered is heard, and the exit code is 0 |
| ComLogger.TimeoutIff | comlogger/comlogger.c:578-621 | with reconnection the exit code is 6 exactly when the timeout is what ends the loop, otherwise 0 |
| ComLogger.LostPortIff | comlogger/comlogger.c:605-611 | without it a lost port gives 5, unless somebody ended the loop first |
| ComLogger.ReplaySleep | comlogger/comlogger.c:404-413 | the pause runs to its end if and only if no poll up to and including the one behind its last nap sees a stop; cut at a poll, it has slept the naps before it |
| ComLogger.Logger.Feed | comlogger/comlogger.c:469-486 | a replayed chunk and the flush after it keep file, buffer and what was fed in step |
| ComLogger.Logger.Play | comlogger/comlogger.c:455-487 | the loop feeds as many of the recorded chunks, sleeps as long and ends with the exit code that the timeouts and polls call for, one during a pause included |
| ComLogger.Logger.Room | comlogger/comlogger.c:464-468 | room for a chunk to replay is asked for once and had if granted |
| ComLogger.Logger.RunReplay | comlogger/comlogger.c:421-500 | the exit code is 4 if and only if an allocation was refused; otherwise, whole, short or interrupted, a replay puts the assembled first chunks of the recording, as many as it got to, each once, behind the file |
| ComLogger.PlayedIsPrefix | comlogger/comlogger.c:455-487 | what a replay feeds is a prefix of the recording and it never sleeps more than the waits; a whole one feeds all of it and sleeps exactly the sum |
| ComLogger.QuietWholeIff | comlogger/comlogger.c:458-472 | undisturbed, a replay is whole if and only if the recording holds the bytes its timing lines ask for |
| ComLogger.RecordingEnough | comlogger/comlogger.c:344-349 | what was recorded holds the bytes its timing lines ask for |
| ComLogger.RecordingPlaysBack | comlogger/comlogger.c:344-349 | an undisturbed replay of a recording is whole, feeds exactly the recorded bytes, and sleeps the last offset if and only if offsets never fall |
| ComLogger.Logger.ReplayRecording | comlogger/comlogger.c:415-500 | undisturbed and without stamps it ends with 0, unless an allocation is refused, and leaves the old file followed by exactly the recorded bytes, at the recorded pace |
| ComLogger.TimingReadBack | comlogger/comlogger.c:344-349 | a recorded timing line is read back as its offset and length |
| ComLogger.TimingMeans | comlogger/comlogger.c:459 | a timing line is two numbers with white space before and between them, whatever follows |
| ComLogger.ReplayGivesBack | comlogger/comlogger.c:455-472 | replaying what was recorded feeds the same chunks at the same offsets |
| ComLogger.WaitsIff | comlogger/comlogger.c:460-461 | the waits sum to the last offset if and only if offsets never fall |
| ComLogger.FiresWithin | comlogger/comlogger.c:180-183 | within half the range of the wrapping clock the watchdog fires exactly when its time is up |
| ComLogger.QuietUntilDueIff | comlogger/comlogger.c:180-183 | the watchdog never fires early if and only if the timeout is at most half the clock's range |
| SerialMonitor.LogIsFeed | tmp/labkit/labharness/monitor.py:145-156 | cutting a text at each CR and LF and dropping empty pieces leaves the lines and the tail that reading it character by character leaves |
| SerialMonitor.LogSteps | tmp/labkit/labharness/monitor.py:145-156 | the log of any text, character by character: a CR or an LF ends the line, a line that is empty is dropped, anything else goes on with the tail |
| SerialMonitor.AbsorbCut | tmp/labkit/labharness/monitor.py:145-156 | cutting at CR LF as one terminator and cutting at each character log the same lines |
| SerialMonitor.LogGrows | tmp/labkit/labharness/monitor.py:145-156 | splitting tail plus chunk extends the log of the text before to the log of the text with the chunk, wherever the datagram boundary fell |
| SerialMonitor.Monitor.constructor | tmp/labkit/labharness/monitor.py:49-68 | nothing received, nothing logged |
| SerialMonitor.Monitor.TakeLines | tmp/labkit/labharness/monitor.py:145-156 | the pieces but the last, without empty ones, are logged; the last becomes the tail |
| SerialMonitor.Monitor.Receive | tmp/labkit/labharness/monitor.py:130-143 | after any datagram the lines logged and the tail are those of the whole text so far, and the position has not moved |
| SerialMonitor.FindEarliest | tmp/labkit/labharness/monitor.py:159-191 | the match found is the earliest occurrence at or after the position |
| SerialMonitor.FindStable | tmp/labkit/labharness/monitor.py:159-191 | a match found in what has arrived stays the match, whatever arrives later |
| SerialMonitor.WalkOrder | tmp/labkit/labharness/monitor.py:159-191 | successive matches are each the earliest after the end of the one before, never overlap and end within the text |
| SerialMonitor.Monitor.Expect | tmp/labkit/labharness/monitor.py:159-191 | a match is the earliest after the position in what has arrived and moves the position to its end; a timeout leaves the position and means there is none in all that arrived |
| SerialMonitor.Monitor.ReceiveAll | tmp/labkit/labharness/monitor.py:130-143 | datagrams between two calls extend the text and leave the position |
| SerialMonitor.Monitor.ExpectAll | tmp/labkit/labharness/monitor.py:159-191 | a sequence of expects finds what it would find with the whole stream there from the start, however it is cut into datagrams and whether these arrive during a call or between two |
| SerialMonitor.Monitor.Mark | tmp/labkit/labharness/monitor.py:284-293 | whatever arrives later, no later match begins in the text already there |
| SerialMonitor.Monitor.Stop | tmp/labkit/labharness/monitor.py:92-104 | the unterminated tail is logged once, marked as partial |
| JiraComment.TextToAdf | tmp/jira-tortoise/jira_comment.py:107-128 | the paragraph loop with its popped blank lines and hard breaks builds the document that WordsSurvive is about |
| JiraComment.TrimLines | tmp/jira-tortoise/jira_comment.py:113-118 | the two popping loops remove the blank lines at both ends and no other |
| JiraComment.ParagraphNodes | tmp/jira-tortoise/jira_comment.py:119-126 | the loop puts one hard break between each two lines and no text node for an empty one |
| JiraComment.FlatNodes | tmp/jira-tortoise/jira_comment.py:119-147 | a paragraph's nodes flatten to its lines joined by one break |
| JiraComment.WordsSurvive | tmp/jira-tortoise/jira_comment.py:107-151 | text to document and back keeps the words, in order, for every text |
| JiraComment.NormalSurvives | tmp/jira-tortoise/jira_comment.py:107-151 | and so the normalised text, for every text |
| JiraForeign.NormaliseIff | tmp/jira-tortoise/jira_comment.py:150-151 | texts are held equal exactly when they have the same words in the same order |
| JiraForeign.TidySurvives | tmp/jira-tortoise/jira_comment.py:107-147 | paragraphs without blank edges become one node each and come back line for line |
| JiraForeign.ContainerFlat | tmp/jira-tortoise/jira_comment.py:131-147 | every kind but text and line break flattens to what is inside it, a paragraph with an empty line behind it |
| JiraForeign.NestWords | tmp/jira-tortoise/jira_comment.py:131-147 | a text keeps its words however deep it stands in containers of any kind |
| JiraForeign.BlockWords | tmp/jira-tortoise/jira_comment.py:131-147 | a document of paragraphs in any nest of containers has the words of their texts, in order |
| JiraComment.ExistingCommentTexts | tmp/jira-tortoise/jira_comment.py:158-177 | paging collects every comment's text once and in order, whatever the size of the pages |
| JiraComment.RunOnce | tmp/jira-tortoise/jira_comment.py:252-269 | a `--once` run leaves the comments that NeverTwice and RerunIsOnce reason about: unchanged when an equal one is there, one more otherwise |
| JiraComment.NeverTwice | tmp/jira-tortoise/jira_comment.py:260-269 | over any sequence of runs old comments stay, every text that is not blank is present in the end, and no comment was added beside an equal one |
| JiraComment.RerunIsOnce | tmp/jira-tortoise/jira_comment.py:224-226 | any number of runs with one text leaves what one run leaves |
| JiraForeign.ForeignFound | tmp/jira-tortoise/jira_comment.py:260-266 | a comment of any form made of paragraphs with the words of the text, such as a list typed by hand, keeps a run from adding one |
| JiraForeign.NestFound | tmp/jira-tortoise/jira_comment.py:260-266 | so does a single text in any nest of containers |
| Changelog.JoinList | tmp/svn_changelog.py:123-138 | without a limit every item is joined; with one, the cell holds the longest prefix of items that fits, and the number it prints plus the items shown is the length of the list |
| Changelog.ParseLog | tmp/svn_changelog.py:318-388 | one correct row an entry, in revision order; every changed path of every entry in the change list, by revision and path; the file counts of the rows sum to the number of changes |
| Changelog.SortByRevSorted | tmp/svn_changelog.py:387 | sorting by revision and path does sort |
| Changelog.GroupRow | tmp/svn_changelog.py:391-423 | a path's row holds exactly the revisions that change it, rising, with least and greatest as first and last, and each action as often as the path's changes take it |
| Changelog.BuildFiles | tmp/svn_changelog.py:391-423 | one row for each changed path and no other, each row right, action by action, most revisions first; action counts sum to the number of changes |
| Changelog.SortSorted | tmp/svn_changelog.py:394-395 | sorting by path and revision does sort |
| Changelog.AllChangesExact | tmp/svn_changelog.py:344-379 | a path and revision are in the change list if and only if that commit lists that path |
| Changelog.AllChangesAre | tmp/svn_changelog.py:344-379 | the change list holds exactly one path of one commit each, with that commit's revision, date and author and that path's action |
| Changelog.LabelsAt | tmp/svn_changelog.py:377-378 | the file column names each change as action and path |
| Changelog.GroupByPath | tmp/svn_changelog.py:393-395 | the dictionary holds each path once with all its changes, in order |
| Changelog.SortedRowsMean | tmp/svn_changelog.py:422 | rows with more revisions come first, then by path |
| Changelog.StrLeIff | tmp/svn_changelog.py:365 | strings are ordered by their first difference, prefixes first |
| Changelog.BuildTables | tmp/svn_changelog.py:318-423 | from one log: the file table is the exact inverse of the commit table and both count the same number of files |
| PsuSwitch.ShowsLastSuccess | tmp/trayctl/psu.c:152-201 | in every interleaving a channel shows the target of its last successful switch, and at most one channel is busy, exactly while its command runs |
| PsuSwitch.ClicksFlip | tmp/trayctl/psu.c:317-330 | between two dequeues the request is the state at the first click, flipped if the number of clicks is odd, and commands never outnumber clicks |
| PsuSwitch.ReportsLast | tmp/trayctl/psu.c:241-262 | a report is pending exactly when a command of the channel ended since the last notice; one of success means the state shown is the target of the last command that ended, one of failure that it failed |
| PsuService.EveryClickCounts | tmp/trayctl/psu.c:319-330 | every click on a channel is in the history, and no other |
| PsuService.TickTells | tmp/trayctl/psu.c:241-262 | a tick tells every pending report once, with the state shown, leaves none and touches nothing else |
| PsuService.Serves | tmp/trayctl/psu.c:183-201 | whatever a channel is asked for, the worker left to itself comes to it and switches it so |
| PsuService.FailureKeeps | tmp/trayctl/psu.c:152-164 | a command that fails leaves the channel as it was and says so |
| GenList.Add | list/genlist.h:28-48 | the value is appended; the other nodes are kept; the result is a list without cycles |
| GenList.Remove | list/genlist.h:50-80 | the first equal element is taken out and its node given back, or nothing changes; a missing element to compare with changes nothing |
| GenList.WithoutTakesOne | list/genlist.h:50-80 | removing takes away one occurrence of the element if there is one and none of any other |
| GenList.FindValue | list/genlist.h:57-67 | the search stops at the first node with the value, with the node before it |
| GenList.Unlink | list/genlist.h:68-79 | the list without one node, which is disjoint from what is left |
| GenList.RemoveAt | list/genlist.h:82-108 | the element at the index is taken out; past the end nothing changes; a negative index takes the head |
| GenList.Count | list/genlist.h:125-136 | the number of elements |
| GenList.PrintAll | list/genlist.h:110-123 | every value is handed to the printer once, in order |
| GenList.FreeAll | list/genlist.h:138-149 | every node is freed once, in order, and the head is cleared |

## Left out

Where the code parts from its documentation, the model follows the code: the losslessness of svntrace.py (lines
25-26), its promise that existing records are never modified (lines 11 and 480), and the claim in filewatch.c (lines 69-75) that only the worker touches the buffers it publishes.

Members that say less than the program does:

- CommitParser.CommitsToDict: texts are ASCII, and the theorems about it assume that CR occurs only before LF; Unicode white space and digits, Python's limit on digits of an integer, and the wording and line numbers of errors are not modelled.
- CommitCli.Invoke: the disk holds texts as `_read_text` yields them, after universal newlines, so without CR; the command line's own syntax, exit codes and messages are left out.
- CommitImport.Document.UpdateFromSvn: the log is given as entries with rising revisions, stripped fields and dates already formatted; of its failures only a start below revision zero is modelled; the `svn log` subprocess, its XML and calendar arithmetic are left out.
- FileSearch.Scan.FindMatch: paths are taken to fit their buffers; a folder component of MAX_PATH characters is refused as in the code, the base length limit and snprintf truncation are not modelled. The file system's own matching of a last component is a parameter, so its case folding and its short names are whatever the disk does; a literal folder is looked up as spelled.
- FileSearch.Scan.Search: what is searched does not change during a scan.
- Glob.MatchComponent: lower-casing is that of ASCII.
- ScanHandshake.OneWorker: the machine works on values, not on a class per thread; the status line, the banner, shutdown and the first scan at start-up are left out, and `read_detail` is whatever the worker saw.
- Dispatcher.ReadLastRev: revisions are unbounded where the script converts to a 32-bit integer; the worker job and its e-mail are left out.
- Dispatcher.NeverSkips: retention that drops the newest stamp, which the script's notes accept as a gap, is excluded.
- OutputBuffer.OBuf.Reserve: sizes are unbounded; doubling never wraps.
- ComLogger.Logger.Capture: a failed flush writes nothing; short writes, which keep the buffer after part of it reached the file, are not covered, nor are port set-up, echo and the format of stamps.
- ComLogger.Logger.RunReplay: what an exit for lack of memory leaves in the file is not stated, nor the deletion of the kill file; timing lines hold unsigned decimals; signs that sscanf would accept are not modelled.
- SerialMonitor.Monitor.Receive: a chunk is decoded text; a character split across two datagrams is not modelled, nor are sockets, thread timing and packet counts.
- SerialMonitor.Monitor.Expect: literal patterns only; for a general expression, and for `expect_any`, the result depends on arrival times. `expect_silence` and `assert_quiet` are left out.
- JiraComment.RunOnce: the server keeps bodies as they are and answers every request; HTTP errors, visibility, dry runs and credentials are left out.
- JiraComment.ExistingCommentTexts: every page before the last holds at least one comment.
- Changelog.ParseLog: author names, tickets, dates and copy sources are left out; each is a column of its own.
- Changelog.BuildFiles: the actions of a path are a multiset, not the text of that column; extension, kind, authors, dates and copied-from are left out.
- PsuSwitch.ShowsLastSuccess: the machine works on values; the alert raised while a channel is on, reading volts, the command runner, the error text and shutdown are left out.
- GenList.Add: a failed calloc, which the macro does not look for, is not modelled.
- GenList.Remove: memcmp compares padding too; the model compares values.
- GenList.Count: the count does not wrap.

Not modelled at all:

- Windows, tray icons, menus, app bars, configuration files and notifications of the tray programs.
- `psuctrl` and the SCPI core, whose `psuctrl_common.c` is not part of this model.
- `register-modules`, `guess_func`, `c_parser.py`, `backtrace_inject.py` and the small demonstrations: library calls, floating point or single branches.
- `main.c`, `autologoff.c`, `logserver.py`, `warntable.py`, `load_client.py` and `report.py`: filters and single branches without a property that spans them.
