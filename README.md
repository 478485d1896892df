# PBS job manager: a Dafny model

This project models the job-table logic of a Windows client that manages PBS
batch jobs on several Linux servers. It also models the server-side script
that turns the output of `qstat -f -Fjson` into the job feed the client reads.

On the client side (`PBSJobManager` in `WindowsPBS.py`) the model covers:

- translating a Windows path to a server and a Linux path, and the reverse
  hostname-to-drive table;
- fetching every server's feed, normalising it and merging it into one job
  table;
- the stable sort with its numeric CPUs key, the fixed-width table with cut
  cells, and the status and owner filters;
- first-match lookup of a partial job id;
- the kill and submit decisions: which server, which commands, when the job
  directory is removed;
- following a job's log: the existence check, the initial 50-line view and
  the size-polling loop with delta reads and reset detection.

On the server side (`que.py`) it covers:

- the four textual repairs of the raw `qstat` dump (a literal replace and
  three regular-expression substitutions), then removal of the caret noise;
- `get_job_directory`: job id to an ordered record with the owner cut at `@`
  and a kilobyte size converted to Mb or Gb;
- the conversion of that directory into the printed list.

The loop of `get_job_directory` is `Qstat.Directory`, written once over its
body as a function value. `Qstat.Builder` supplies that body under either
`Memory` rule: as written, or as evidently intended (see Findings).

Every SSH command goes through `connect_and_execute`. It is modelled as an
oracle `Channel` from a server and a command to what the transport returned
(`Remote.Transport`). `Remote.ConnectAndExecute` is the decision the client
takes on that answer. JSON parsing is a `decode` parameter. The operator's
answers and the size-probe answers of the log loop are values and sequences.

The client's stateful parts are imperative methods:

- `Manager.JobManager` is a class whose `allJobs` field `FetchAllJobs` resets
  and extends.
- The search loops, the row loops, the poll loop, `get_job_directory` and the
  list conversion are `while` loops.
- Each method is proved equal to a specification function. The properties the
  source promises are proved as lemmas about those functions.

## Model

| member | source | states |
|---|---|---|
| Remote.ConnectAndExecute | WindowsPBS.py:182-217 | the answer is absent exactly when the connection failed, or when stderr is non-empty and stdout empty; otherwise it is stdout, possibly empty |
| Remote.SilentCommandSucceeds | WindowsPBS.py:209-213 | a command that prints nothing succeeds with `""`, which callers that test truthiness treat as no output |
| Remote.SetupServers | WindowsPBS.py:170-180 | one server per configured entry, in order, with the entry's hostname and name and the session's user as login |
| Text.ParseNatToString | WindowsPBS.py:231 | reading back the decimal text of a count gives the count (`int(str(n)) == n`) |
| Text.StripLeft | WindowsPBS.py:422 | the result is a suffix of the input; only whitespace (every character `str.isspace` accepts, the ASCII separators `\x1c`-`\x1f` included) was dropped; it does not start with whitespace |
| Text.StripRight | WindowsPBS.py:422 | the result is a prefix of the input; only whitespace (the same `str.isspace` set) was dropped; it does not end with whitespace |
| Text.Strip | WindowsPBS.py:422 | `strip()` keeps one contiguous piece of its input, everything before and after that piece is `str.isspace` whitespace, and the piece neither starts nor ends with whitespace |
| Text.StripRemovesSeparators | WindowsPBS.py:422 | the ASCII separators count as whitespace: `"\x1c5\x1f".strip()` is `"5"` |
| Text.Upper | WindowsPBS.py:776 | `upper()` keeps the length and upper-cases each ASCII letter, leaving every other character |
| Text.ContainsIff | WindowsPBS.py:321 | the recursive substring test `t in s` holds exactly when `t` occurs in `s` at some index |
| Text.StartsWithContains | WindowsPBS.py:371 | a string that starts with `t` contains `t` |
| PathMapping.Lookup | WindowsPBS.py:467-470 | `drive_mapping[drive]` is absent exactly when no entry has that drive; a found host comes from an entry with that drive |
| PathMapping.LookupPair | WindowsPBS.py:470 | with distinct drives, looking up an entry's drive gives that entry's host |
| PathMapping.Slashed | WindowsPBS.py:473 | every backslash becomes a slash and every other character is kept in place |
| PathMapping.WindowsToLinuxPath | WindowsPBS.py:462-476 | no result exactly when the upper-cased drive is unmapped; otherwise the drive's host, and a path that starts with `base/user`, continues with the path after `X:` character by character with slashes for backslashes, and holds no backslash after the root |
| PathMapping.GetDriveLetter | WindowsPBS.py:478-481 | none for an empty path, otherwise the one upper-cased first character |
| PathMapping.DriveCheckAgrees | WindowsPBS.py:462-481 | the `drive in drive_mapping` check on `get_drive_letter` accepts exactly the paths `windows_to_linux_path` maps |
| PathMapping.ServerToDrive | WindowsPBS.py:142 | the reverse table has exactly the mapped hosts as keys |
| PathMapping.ServerToDriveLastWins | WindowsPBS.py:142 | for a host mapped more than once, the drive of its last entry wins, as in a dict comprehension |
| PathMapping.ReverseThenForward | WindowsPBS.py:142 | the drive the reverse table gives a host maps back to that host, even when hosts repeat |
| PathMapping.ForwardThenReverse | WindowsPBS.py:142 | with distinct hosts, the reverse table inverts the mapping |
| PathMapping.TranslationHasReverseDrive | WindowsPBS.py:462-476 | every host a path translates to has a drive in the reverse table, and with distinct hosts it is the path's own drive |
| Records.Stringify | WindowsPBS.py:231 | `str(v)` keeps a string as it is, and a non-negative count prints as digits that read back as the count |
| Records.NormalizeJob | WindowsPBS.py:226-235 | the record is tagged with the server it came from; an absent key reads "N/A"; a string value is copied; a CPU count reads back as that count |
| Records.NormalizeAll | WindowsPBS.py:225-236 | one record per feed element, in feed order, each the normalised element |
| Records.ParsedJobs | WindowsPBS.py:219-242 | a feed that does not decode gives no records; otherwise record i is element i normalised and tagged with the server, one record per element |
| JobTable.CpusKey | WindowsPBS.py:277 | the CPUs sort key is the number a digit string denotes, and 0 for anything else |
| JobTable.StrLeTotal | WindowsPBS.py:279 | any two strings compare one way or the other |
| JobTable.StrLeTransitive | WindowsPBS.py:279 | string order is transitive |
| JobTable.StrLeAntisymmetric | WindowsPBS.py:279 | strings ordered both ways are equal |
| JobTable.KeyLeTotalOrder | WindowsPBS.py:276-279 | the sort key order is reflexive, total, transitive and antisymmetric |
| JobTable.InsertPermutes | WindowsPBS.py:276-279 | inserting a record adds exactly that record |
| JobTable.InsertSorted | WindowsPBS.py:276-279 | inserting into a sorted list keeps it sorted |
| JobTable.InsertGroups | WindowsPBS.py:276-279 | an inserted record goes ahead of the records with its key already there, and no other group changes |
| JobTable.SortJobsSorted | WindowsPBS.py:276-279 | the sorted jobs are in key order |
| JobTable.SortJobsPermutes | WindowsPBS.py:276-279 | sorting keeps the same jobs, each as often |
| JobTable.SortJobsKeepsGroup | WindowsPBS.py:276-279 | jobs with equal keys keep their input order |
| JobTable.SortJobsIsStableSort | WindowsPBS.py:276-279 | the sort is a stable sort of its input: ordered, a permutation, equal keys in input order |
| JobTable.SortJobsKeepsLength | WindowsPBS.py:276-279 | sorting neither adds nor drops jobs |
| JobTable.StableSortUnique | WindowsPBS.py:276-279 | two sorted lists with the same jobs in every key group are equal, so the stable sort's result is unique |
| JobTable.SelectCounts | WindowsPBS.py:777 | a comprehension filter keeps each matching job as often as it occurs and drops the others |
| JobTable.SelectKeepsMatches | WindowsPBS.py:777 | a job is kept exactly when it is in the table and matches, with its multiplicity |
| JobTable.SelectKeepsSorted | WindowsPBS.py:777 | filtering a sorted list leaves it sorted |
| JobTable.SelectCommutesWithGroups | WindowsPBS.py:777 | filtering then taking a key group equals taking the group then filtering |
| JobTable.SelectThenSort | WindowsPBS.py:776-779 | sorting the filtered jobs shows the same list as filtering the sorted table |
| JobTable.StatusFilter | WindowsPBS.py:776-777 | a job is shown exactly when its status equals the stripped, upper-cased input |
| JobTable.OwnerFilter | WindowsPBS.py:782-783 | a job is shown exactly when its owner equals the stripped input |
| JobTable.FirstMatch | WindowsPBS.py:320-324 | the result is the first job in table order whose id contains the token, and none when no id contains it |
| JobTable.ViewLogMatchIsContains | WindowsPBS.py:371 | `view_log`'s test `token in id or id.startswith(token + '.')` is plain containment |
| JobTable.EmptyTokenPicksFirst | WindowsPBS.py:320-324 | an empty token matches the first job of a non-empty table |
| JobTable.CpusSortIsNumeric | WindowsPBS.py:277 | CPUs "16", "4", "N/A" sort as "N/A", "4", "16" |
| JobTable.CpusKeys | WindowsPBS.py:277 | "16" and "4" key as 16 and 4, and "N/A" as 0 |
| JobTable.PartialIdIsAmbiguous | WindowsPBS.py:320-324 | a partial id can pick another job that is listed first: "123" picks "98123" ahead of "123.server1" |
| Display.Width | WindowsPBS.py:282-291 | every column is at least 6 wide, so the cut below is always defined |
| Display.Truncate | WindowsPBS.py:308-309 | a cut value is at most `width - 1` long; a fitting value is kept; a longer one is its first `width - 4` characters and "..." |
| Display.Pad | WindowsPBS.py:310 | left-justification appends spaces up to the width and never cuts |
| Display.Cell | WindowsPBS.py:307-310 | a cell is exactly `width + 1` long, starts with the cut value, and is blank after it |
| Display.RowCells | WindowsPBS.py:306-310 | one cell per column, in column order, each the cell of that field |
| Display.HeaderCells | WindowsPBS.py:296-298 | one header cell per column |
| Display.SeparatorCells | WindowsPBS.py:296-298 | one separator cell per column |
| Display.ColumnsLineWidth | WindowsPBS.py:282-310 | cells of the column widths join into a line 177 characters wide |
| Display.ColumnsLayout | WindowsPBS.py:282-310 | the cell of column `c` sits at that column's offset in the line |
| Display.RowCellsSized | WindowsPBS.py:306-310 | every cell of a row has its column's width plus one |
| Display.RowLayout | WindowsPBS.py:304-311 | every row is one line wide, and column `c` of it is the cut, padded value of the job's field |
| Display.LineWidthIsTotal | WindowsPBS.py:282-291 | the columns and their spaces add up to 177 |
| Display.CellShowsFittingValue | WindowsPBS.py:307-310 | a value that fits and does not end in whitespace is read back from its cell by stripping trailing spaces |
| Display.StripRightPadding | WindowsPBS.py:310 | stripping removes exactly the padding spaces after such a value |
| Display.RenderHeader | WindowsPBS.py:294-298 | the header and separator loops build the joined header and separator cells |
| Display.RenderCell | WindowsPBS.py:307-310 | the cell the loop body builds is the cut, padded value and a space |
| Display.RenderRow | WindowsPBS.py:305-310 | the row loop builds the joined cells of the job, one line wide |
| LogTail.SizeOf | WindowsPBS.py:422-423 | a probe answer gives a size exactly when it is present and its stripped text is all digits |
| LogTail.Baseline | WindowsPBS.py:419-423 | the starting baseline is the probed size, or 0 when the probe gave none |
| LogTail.Readings | WindowsPBS.py:430-434 | one size reading per poll answer, in order |
| LogTail.StepCases | WindowsPBS.py:430-454 | an unreadable answer keeps the baseline; growth reads exactly the new bytes; shrinking prints the reset notice and then reads 50 lines; an equal size runs nothing more; after a readable answer the baseline is that size |
| LogTail.FollowEndsAtLastSize | WindowsPBS.py:425-454 | the baseline ends at the last size any poll reported |
| LogTail.DeltaReadsCoverGrowth | WindowsPBS.py:437-446 | without a reset, the delta reads add up to the growth of the file: no byte is read twice or skipped |
| LogTail.FollowWellFormed | WindowsPBS.py:437-454 | every delta read asks for at least one byte, and every reset notice is followed by the 50-line read |
| LogTail.SizeOfStatLine | WindowsPBS.py:420-423 | `stat`'s answer, a size and a newline, reads back as that size |
| LogTail.ShrinkAfterGrowth | WindowsPBS.py:425-454 | sizes 100, then 100, 250, 40: nothing, a 150-byte read, then the reset notice and a 50-line read |
| FeedRepair.SpanSound | que.py:14-15 | every character of a run satisfies the class and the next one does not |
| FeedRepair.SpanLongest | que.py:14-15 | no longer run of the class starts there |
| FeedRepair.NumberScan | que.py:17 | the scanned number prefix is in the number-with-exponent language |
| FeedRepair.NumberLongest | que.py:17 | no longer prefix is in that language |
| FeedRepair.LastCommaLongest | que.py:15 | the last comma before the end of a non-space run is the rightmost one there |
| FeedRepair.MatchLen | que.py:12-18 | a match of a rule starts with its fixed text and lies within the input |
| FeedRepair.MatchSound | que.py:12-18 | what the matcher takes is in the rule's pattern language |
| FeedRepair.MatchLongest | que.py:12-18 | no longer prefix is in the pattern language, so the match is the one the regular expression takes |
| FeedRepair.ExponentFormMatched | que.py:16-18 | `"expl":1.5e-3` is matched up to the end of its exponent |
| FeedRepair.PlainDecimalUnmatched | que.py:16-18 | `"expl":1.5` has no exponent and is not matched |
| FeedRepair.PathRunsToLastComma | que.py:15 | the deleted `PBS_O_PATH` text runs to the last comma before the next whitespace |
| FeedRepair.NumericJobNameMatched | que.py:14 | `"Job_Name":42,` is matched whole |
| FeedRepair.SubWithSkips | que.py:14-18 | text before the first match is copied through unchanged |
| FeedRepair.SubSkipsUnmatched | que.py:14-18 | the same, for a rule's substitution |
| FeedRepair.SubUnmatchedIsIdentity | que.py:12-18 | a substitution with no match leaves the text as it is |
| FeedRepair.SubWithReplacesFirst | que.py:14-18 | the first match is replaced and scanning resumes right after it |
| FeedRepair.SubReplacesFirstMatch | que.py:12-18 | the same, for a rule's substitution: leftmost, non-overlapping replacement |
| FeedRepair.CleanTextKeepsCleanFeed | que.py:12-21 | a dump with nothing to repair reaches the parser unchanged |
| FeedRepair.UnmatchedWithoutLeadChar | que.py:12-20 | a text lacking some character of a pattern's fixed lead has no match of it |
| FeedRepair.QuoteInNumericName | que.py:14 | inside a match of `"Job_Name":\d+,` a `"` after the first character is the key's closing quote, followed by `:` |
| FeedRepair.NoNumericNameAtUnknown | que.py:14 | the written `"Job_Name":"Unknown",` does not begin a numeric name, whatever follows |
| FeedRepair.NoNumericNameInsideUnknown | que.py:14 | no numeric name begins inside the written name |
| FeedRepair.MatchBeforeIsMatchInSource | que.py:14 | a numeric name lying wholly in copied text was a match in the original text at the same place |
| FeedRepair.MatchNotReachingQuoteJ | que.py:14 | a numeric name starting in copied text cannot reach a following `"J` |
| FeedRepair.NoMatchBeforeQuoteJ | que.py:14 | no numeric name begins in the text copied before a written name |
| FeedRepair.CopyThenUnknownUnmatched | que.py:14 | copied text, a written name and repaired text with no numeric name together hold no numeric name |
| FeedRepair.NameRepairLeavesNoNumericName | que.py:14 | after the `"Job_Name":\d+,` substitution no numeric job name is left anywhere in the text |
| FeedRepair.LeadingZeroNameMatched | que.py:14 | `"Job_Name":007,` is matched whole |
| FeedRepair.LeadingZeroNameNotInf | que.py:12-13 | the literal `inf` repair leaves `"Job_Name":007,` alone |
| FeedRepair.LeadingZeroNameRepaired | que.py:12-14 | the two `Job_Name` repairs turn `"Job_Name":007,` into `"Job_Name":"Unknown",` |
| FeedRepair.UnknownKeepsExponent | que.py:16-18 | an exponent repair whose lead holds a character the written name lacks leaves that name alone |
| FeedRepair.UnknownKeepsExponents | que.py:16-18 | the three exponent repairs leave the written name alone |
| FeedRepair.UnknownSurvivesLaterRepairs | que.py:15-20 | the path, exponent and caret repairs leave the written name alone |
| FeedRepair.LeadingZeroNameCleaned | que.py:12-21 | the malformed fragment `"Job_Name":007,` (a number with leading zeros, which JSON forbids) reaches the parser as `"Job_Name":"Unknown",` |
| Qstat.OwnerOf | que.py:42 | the owner is the text before the first `@`, or all of it |
| Qstat.ConvertKb | que.py:43-49 | Gb exactly above 1048576 kb; the amount is the count divided by 1024 (Mb) or by 1048576 (Gb); an Mb amount is at most 1024 and a Gb amount above 1 |
| Qstat.KbAmount | que.py:44 | the size before `kb` is accepted exactly when it is digits, and then is their value |
| Qstat.MemoryAsWritten | que.py:43-51 | as written: a size that is not text fails; a non-kb size writes no `Memory`; a kb size is accepted exactly when its number is digits, and then is the conversion of that number |
| Qstat.Memory | que.py:43-51 | as intended: a non-kb size is passed through as reported; a kb size is the conversion of its number |
| Qstat.CopiedFields | que.py:38-42 | the copy succeeds exactly when every read path is present and the owner is text, and then it holds those values |
| Qstat.BuildEntryAsWritten | que.py:37-51 | as written: building succeeds exactly when the fields copy, the size is present and `MemoryAsWritten` accepts it; the entry then has the copied fields and that `Memory` (none exactly when the size is text not ending in "kb") |
| Qstat.BuildEntry | que.py:37-51 | as intended: building succeeds exactly when the fields copy, the size is present and `Memory` accepts it; the entry then has the copied fields and always that `Memory` |
| Qstat.BuildersAgree | que.py:37-51 | the two builders succeed and fail alike, with the same error; they build the same entry unless the size is not in kb, where the intended one writes it through as reported and the one as written drops it |
| Qstat.Build | que.py:37-51 | under either rule, building succeeds exactly when the fields copy, the size is present and that rule's `Memory` accepts it; the entry has the copied fields and that rule's `Memory`, which is absent exactly under the rule as written with a non-kb size |
| Qstat.Assign | que.py:37 | `jobDir[job] = ...`: a new key goes last; an existing key keeps its place (the first pair with it) and takes the new value, every other pair is unchanged, and the keys stay the same |
| Qstat.AssignMembers | que.py:37 | after assigning, the new pair is present, and every pair was there before or is the new one |
| Qstat.JobDirectory | que.py:32-52 | under either rule, a document without `Jobs` gives an empty directory |
| Qstat.DirectoryBuildsEveryJob | que.py:36-51 | a directory that was built had every job build |
| Qstat.DirectoryFailureSticks | que.py:36-51 | once a job fails, the whole call fails with that job's error |
| Qstat.DirectoryOfDistinctJobs | que.py:34-51 | with distinct ids and no failure, one entry per job, in document order, keyed by its id and built from it |
| Qstat.DirectoryEntriesHaveMemory | que.py:43-51 | with the intended `Memory`, every entry of a built directory has a size |
| Qstat.GetJobDirectory | que.py:32-52 | under either rule, the loop filling `jobDir` computes the directory, or the first job's failure |
| Qstat.EmittedCases | que.py:63-73 | the list is printed exactly when every entry has `Memory`, with one element per entry, in order, carrying its id and fields; otherwise it fails on `Memory` |
| Qstat.EmitJobList | que.py:63-73 | the loop appending to `job_list` computes that list |
| Qstat.EveryBuiltDirectoryIsEmitted | que.py:63-73 | with the intended `Memory`, every directory that was built is printed, one element per job |
| Qstat.AsWrittenListFailsExactlyOnNonKb | que.py:32-73 | as written, for any document whose directory builds, printing the list fails with `KeyError` on `Memory` exactly when some job's size is text not ending in "kb" |
| Qstat.ByteSizedJobBreaksListAsWritten | que.py:32-73 | as written, the directory of one complete job whose size is "0b" builds, and printing it fails on `Memory` |
| Qstat.ByteSizedJobPassesThrough | que.py:32-73 | as intended, the same directory holds the job with its size as reported, and it is printed |
| Qstat.ConversionExamples | que.py:43-49 | 2097152 kb is 2.0 Gb, 512000 kb is 500.0 Mb, and 1048576 kb stays 1024.0 Mb |
| Manager.FindServer | WindowsPBS.py:331-335 | the first server whose name (or hostname) is the value, and none when no server has it |
| Manager.FetchedAllFailed | WindowsPBS.py:250-261 | when no server gives a non-empty answer, the table is empty |
| Manager.FetchedComesFromAnsweringServers | WindowsPBS.py:250-258 | every fetched record is tagged with the name of a server that answered |
| Manager.FetchedSnoc | WindowsPBS.py:250-258 | one more server appends exactly its contribution |
| Manager.Rows | WindowsPBS.py:304-311 | one printed row per job, the i-th being the fixed-width row of the i-th job |
| Manager.KillPlanRules | WindowsPBS.py:315-363 | with no resolved server nothing is sent and the kill fails; otherwise `qdel` is sent first; the kill succeeds exactly when `qdel` got an answer, whatever the operator types; the directory is removed only after that and the answer "y" |
| Manager.GivenServerSkipsLookup | WindowsPBS.py:318-339 | given a server, the job is not looked up: the server is the one of that name and the job path stays empty |
| Manager.GivenServerRemovesEmptyPath | WindowsPBS.py:318-352 | so a confirmed removal after a kill given a server is `rm -rf ` with nothing after it |
| Manager.KillResolvesFirstMatch | WindowsPBS.py:319-324 | without a server, the kill addresses the server and path of the first job whose id contains the given one |
| Manager.HostnameDoesNotNameServerForKill | WindowsPBS.py:333 | a hostname that submits to a server cannot name it for a kill unless it is also its name |
| Manager.Answers | WindowsPBS.py:430 | one decided answer per poll, in order |
| Manager.WatchFollowsTheLog | WindowsPBS.py:411-454 | the 50-line view and the probe come first; the baseline ends at the last reported size; the polls are well formed; without a reset the delta reads add up to the growth |
| Manager.LocateJob | WindowsPBS.py:320-324 | the search loop of `kill_job` finds the first matching job |
| Manager.LocateLoggedJob | WindowsPBS.py:370-373 | the search loop of `view_log` finds that same first matching job |
| Manager.LocateServer | WindowsPBS.py:331-335 | the server search loop finds the first server with that name or hostname |
| Manager.ProbedSize | WindowsPBS.py:421-423 | the probe answer read as a size |
| Manager.RenderRows | WindowsPBS.py:304-311 | the row loop prints the rows of the jobs, in order |
| Manager.PollOnce | WindowsPBS.py:430-454 | one poll takes the step the tail state machine prescribes |
| Manager.FollowPolls | WindowsPBS.py:425-454 | the poll loop runs the tail state machine over the poll answers |
| Manager.JobManager.constructor | WindowsPBS.py:114-149 | an empty table, the configured servers logged into as the user, the reverse drive table and the remote script path |
| Manager.JobManager.ParseOutput | WindowsPBS.py:219-242 | the parse loop yields the normalised records of the decoded feed, or none when it does not decode |
| Manager.JobManager.FetchAllJobs | WindowsPBS.py:244-264 | the table is reset and becomes each server's parsed feed, in server order, skipping servers with no answer |
| Manager.JobManager.DisplayJobs | WindowsPBS.py:266-313 | nothing is shown exactly when there are no jobs; otherwise the header, the separator and one row per job of the stable sort; the table is not changed |
| Manager.JobManager.KillJob | WindowsPBS.py:315-363 | the kill's result and commands are those of the kill rules above |
| Manager.JobManager.ViewLog | WindowsPBS.py:365-460 | the first matching job's log is checked on its server and, if present, followed as the tail state machine prescribes |
| Manager.JobManager.SubmitJob | WindowsPBS.py:632-667 | success exactly when a server has that hostname and `qsub` gave a non-empty answer; then the table is refetched, otherwise it is unchanged |

## Left out

- The SSH transport (paramiko, keys, timeouts, host-key policy) is the `Channel` oracle; only the decision on its answer is modelled.
- Loading and validating the YAML configuration and finding the SSH key file: the configuration is an already validated value.
- `copy_directory_contents` and the prompts of `submit_job_interactive` are file-system and console code. Their drive check is modelled (`PathMapping.DriveCheckAgrees`).
- `main`, the menus and all printing are console code. The status and owner filters of the menu are modelled.
- `time.sleep` and stopping the log with Ctrl+C: the poll loop runs over a finite sequence of answers.
- What the `tail` commands print is not modelled: the model records which commands run, not their output.
- The display after a successful submit is not modelled. `SubmitJob` refetches the table.
- `os.path.abspath`: paths are taken as already absolute.
- `json.loads` and `json.dumps` are parameters or left out. JSON floats are not among the feed values.
- A feed that is valid JSON but not a list of flat objects is not modelled. The `decode` parameter returns either such a list or nothing, and a feed value holds no list or object. In the source, a top-level value that is not a list of dicts makes the loop or `job_data.get` at WindowsPBS.py:225-235 raise `TypeError` or `AttributeError`. Only `JSONDecodeError` is caught at WindowsPBS.py:240, so `fetch_all_jobs` stops there. A nested list or object under a field would be copied into the record as it is.
- The `qstat` subprocess, the `que.error.log` file and `sys.exit` on a parse error are left out. The decoded text is modelled (`FeedRepair.CleanText`), the parse is not.
- Decoding UTF-8 with errors ignored: each byte of the dump is one character.
- Only ASCII digits and ASCII letters get their special meaning from `isdigit` and `upper`. Whitespace for `strip` is the full `str.isspace` set.
- FeedRepair.MatchLen: it is proved to return the longest prefix in the pattern's language. That this is also the match of Python's backtracking engine for these four patterns is argued, not proved.
- Qstat.KbAmount: `float()` also accepts signs, decimals, exponents and surrounding spaces. The model accepts digits only and fails on anything else.
- Qstat.ConvertKb: the size is the exact quotient. Rounding to one decimal and the `str()` formatting are left out.
- Records.NormalizeJob: the source applies `str()` only to CPUs and copies other values as they are. The model stores every field as text, and for string values the two agree.
- Manager.Watch: it has no contract of its own. `Manager.WatchFollowsTheLog` states what it does.
- Other sizes than kilobytes are sometimes described as passing through unconverted. The code does not do this: it writes no `Memory` at all (see Findings). The model follows the code in `Qstat.MemoryAsWritten`, and `get_job_directory` is modelled under both rules (`Qstat.MemoryRule`).

## Findings

| source | as written | input that shows it | evidently intended | confidence | as-written member | corrected member |
|---|---|---|---|---|---|---|
| que.py:43-51, 72 | a size not ending in "kb" is read into a local and dropped, so the entry has no `Memory` and the list step raises `KeyError` | a job whose `resources_used.mem` is "0b" | write the size through as reported, so every job is listed | not executed | Qstat.AsWrittenListFailsExactlyOnNonKb | Qstat.EveryBuiltDirectoryIsEmitted |

Other behaviour the model keeps as the code has it:

- `kill_job` compares a given server with the configured names, while `submit_job` compares with hostnames (`Manager.HostnameDoesNotNameServerForKill`).
- A kill given a server leaves the job path empty, so a confirmed removal runs `rm -rf ` with no path (`Manager.GivenServerRemovesEmptyPath`).
- Partial ids take the first job in table order (`JobTable.PartialIdIsAmbiguous`).
