# Model of the filesystem test suites

This project models the parts of the test-suite runner that carry state and arithmetic of
their own, and proves what they promise. Each part is modelled against an abstract file
system or database. Random draws, outcomes of system calls, the moments at which a timer
runs out and the choice of the process that moves next are parameters, so that a statement
about all of them is a statement about all runs.

| file | what it models |
|---|---|
| WearOut.dfy, WearOutPromise.dfy | the agreement of md-workbench ranks on one number of iterations, through three atomics, and when it makes them equal |
| Workbench.dfy, WorkbenchReport.dfy | the FIFO working set of md-workbench over precreate, iterations and cleanup, and its report |
| Fsx.dfy, FsxRun.dfy, FsxLaws.dfy | the shadow image of fsx, updated in place, its main loop, and what the drawn arguments come to |
| TaskClaim.dfy, TaskTurns.dfy, TaskRuns.dfy | the claiming of tasks by mptest processes over one database, and their counters; what one turn does, and what holds of every run |
| Glob.dfy, GlobUnsafe.dfy | the glob matcher of mptest, and the patterns it does not take as meant |
| Script.dfy | its script tokenizer and the skipping of blocks |
| Terms.dfy | its result buffer |
| MdtestTree.dfy, MdtestRun.dfy, MdtestLaws.dfy | the numbering of the mdtest tree, its recursive procedures, sizes and orders |
| RenameChain.dfy | the renaming phase of mdtest |
| EntryLists.dfy | what an fsstress thread remembers of the tree it changes, and the cleanup |
| SmallfileDirs.dfy | the directory layout of smallfile and its cleanup |
| SmallfileData.dfy | the data of smallfile files and their verification |
| Calendar.dfy, Decimals.dfy | dates and time stamps, and decimal numbers |
| Common.dfy | definitions that several modules share |

The concurrent parts (WearOut, Workbench, TaskClaim with TaskTurns and TaskRuns) are state machines: a state, one step
for each event, and runs as sequences of events. A sequence names the process that moves
next, so every sequence is one interleaving. A step touches at most one atomic, does one
file operation, or is one statement of a transaction. The sequential parts are methods and
classes with the loops of the code, each proved against a specification function about
which the lemmas then speak. Bytes of scripts and patterns are written as characters.

Some promises of the documentation and of the code's own comments do not hold of the code
as it stands. The model follows the code:

- The option for wear-out promises that all threads do the same number of iterations
  (src/mdworkbench.rs:61-63). A rank that finishes before the timer runs out stops at its
  own number. `WearOutPromise.AlwaysEqualIff`: the promise holds for every run exactly with at most
  one rank or nothing to do; `WearOutPromise.EqualIffNoEarlyFinisher` says on which runs it holds.
- md-workbench warns that with more objects per rank than precreated ones objects may not be
  there (src/mdworkbench.rs:436-438). `Workbench.NeverErrsIff` says exactly when they are.
- fsx keeps a shadow of the file. After an insertion, and after a preallocation with
  keep-size beyond the end, the shadow is not the file. `Fsx.InsertIsRightIff` and
  `Fsx.KeepSizeIsRightIff` say exactly when it is; `Fsx.InsertLosesTheTail` runs into it.
- The Summary line of mptest is exact if and only if no process took counters with it
  (`TaskRuns.SummaryIsExactIff`).
- In mptest patterns a star stands for any text. With `[` or `#` directly behind the run of
  wildcards it does not. `Glob.Inner` describes what the code decides for every pattern.
  `GlobUnsafe.AgreesIff` says exactly when code and meaning agree if no class follows a
  star. With a class after the leading star they never agree if the class is closed and has
  no other `[` inside or starts with neither `*` nor `[`, and never if its first character is
  none of `*`, `?`, `#` and `[`; if it is not closed, `GlobUnsafe.OpenClassAgreesIff` says
  when. No condition is given for a closed class that starts with `*` or `[` and holds
  another `[`.
- The line counter of mptest misses newlines in some quoted tokens (`Script.LinesIff`).
- Time stamps sort as text in the order of time while years have the same number of digits;
  beyond that `Calendar.EarlierSortsFirstIff` says which of two sorts first.

## Model

| member | source | states |
|---|---|---|
| WearOut.InitInv | src/mdworkbench.rs:200-219 | the fresh atomics and the ranks at the loop head satisfy the inductive invariant |
| WearOut.StepInv | src/mdworkbench.rs:276-382 | each single step (one atomic load, store, fetch_max or fetch_add, or one iteration of file work) of any rank keeps the invariant: the two counters are the sizes of the sets of ranks that contributed and that finished, the total is the largest offer, and nobody is past the spin before everybody is counted |
| WearOut.SumCountsEveryone | src/mdworkbench.rs:371 | although a rank can be in both counters, `contributors + finished >= threads` implies that every rank contributed or finished |
| WearOut.NobodyLeavesEarly | src/mdworkbench.rs:368-374 | for every interleaving: once a rank has left the spin, every rank has contributed its position or left the loop |
| WearOut.TotalIsFinal | src/mdworkbench.rs:365-379 | from the moment some rank has left the spin, no continuation of the run changes the total |
| WearOut.TotalIsMaxOfOffers | src/mdworkbench.rs:366 | the total is one more than the largest contributed position (the result of the MAX reduction) |
| WearOut.StopsExactlyAt | src/mdworkbench.rs:276-390 | a finished rank that contributed has done exactly `total` iterations, any other exactly `num` |
| WearOutPromise.IterationsAreCounted | src/mdworkbench.rs:358 | the loop counter of a rank is the number of iterations that it has performed |
| WearOutPromise.MeetingMeansContributing | src/mdworkbench.rs:359-375 | for every schedule: a rank that never found the timer run out never contributes; one that did has contributed when it is done, and offered one more than the iterations it had performed at the first such moment |
| WearOutPromise.TimerIsObeyed | src/mdworkbench.rs:359-382 | if a rank finds the timer run out after an iteration, it has contributed in every continuation in which it is done |
| WearOutPromise.ArmedIff | src/mdworkbench.rs:365 | the armed flag is raised exactly from the moment that a rank which met the timer moves on |
| WearOutPromise.FinishedRun | src/mdworkbench.rs:276-390 | how every finished run ends: a rank that never met the timer has performed exactly `num` iterations, every other exactly one more than the most that a rank had performed when it met the timer |
| WearOutPromise.CanBeFinished | src/mdworkbench.rs:371-373 | every state that a run can reach has a continuation in which all ranks are done |
| WearOut.NeverStuck | src/mdworkbench.rs:371-373 | in no reachable state are all unfinished ranks kept in the spin: if each of them is spinning, the spin condition holds already |
| WearOut.BoundedMoves | src/mdworkbench.rs:276-390 | however the ranks interleave they make at most `threads * (10 * (num + 1) + 3)` moves besides spinning, so every fair run ends |
| WearOutPromise.EqualIffNoEarlyFinisher | src/mdworkbench.rs:61-63 | which finished runs keep the promise that all threads do the same number of iterations: those where nobody contributed, or everybody did, or the total equals `num` |
| WearOutPromise.AlwaysEqualIff | src/mdworkbench.rs:61-63 | every finished run of a configuration ends with all ranks at the same count if and only if there is at most one rank or `num` is 0 |
| WearOutPromise.OneGoesOn | src/mdworkbench.rs:276-390 | for every other configuration a schedule on which all ranks but one finish before the timer, and that one meets it after its last iteration and does one more |
| WearOut.MaxIsOffered | src/mdworkbench.rs:366 | after each step a positive total is the offer of some rank |
| WearOut.StepAgreement | src/mdworkbench.rs:368-374 | a step after which some rank is past the spin leaves every rank counted |
| Workbench.ShiftsAreInverse | src/mdworkbench.rs:281-283 | the reader and the writer rotations are inverse to each other, so each (owner, data set) has exactly one deleter and exactly one creator |
| WorkbenchReport.ReadsFromBefore | src/mdworkbench.rs:281-282 | the owner whose objects a rank reads is a rank and differs from `rank - offset * (d + 1)` by a multiple of the number of ranks |
| WorkbenchReport.CreatesBehind | src/mdworkbench.rs:335 | the owner for whom it creates differs from `rank + offset * (d + 1)` by such a multiple |
| WorkbenchReport.WhoDeletesAndCreates | src/mdworkbench.rs:264-357 | over every schedule: in an iteration an object of (owner, d) only goes by a move of the rank that is `owner + offset * (d + 1)` up to multiples, and only comes by a move of the rank that is `owner - offset * (d + 1)` |
| WorkbenchReport.WhichObjects | src/mdworkbench.rs:279-336 | which objects a rank stats, reads, deletes and creates in turn (f, d) of iteration k: owner, data set and index |
| WorkbenchReport.ContentsAreThePattern | src/mdworkbench.rs:251-340 | at any moment an object holds the pattern of its owner and item number `i * dsets + d` |
| Workbench.OldestIsLive | src/mdworkbench.rs:279-330 | the object a rank is about to stat, read or delete is inside the live window of its data set, and a delete takes the lowest index |
| Workbench.NewestIsNext | src/mdworkbench.rs:335-338 | a create uses the first index above the window of its data set |
| Workbench.EveryMoveSucceeds | src/mdworkbench.rs:234-418 | in every state that satisfies the invariant the next file operation of every rank succeeds |
| Workbench.WindowStep | src/mdworkbench.rs:277-357 | one move of one rank changes exactly one window, at the end where it has to, and no other |
| Workbench.ChangeFollows | src/mdworkbench.rs:324-349 | directories and objects on disk follow the change of their window |
| Workbench.MoveInv | src/mdworkbench.rs:234-418 | every move keeps the invariant: windows and disk agree, no error is counted, files present plus deletes equals creates |
| Workbench.BarrierWindow | src/mdworkbench.rs:525-553 | the windows that a phase ends with are the ones that the next phase starts with |
| Workbench.RunInv | src/mdworkbench.rs:503-557 | the invariant holds after every schedule of the whole run, for every configuration that the condition of `Workbench.NeverErrsIff` admits |
| Workbench.LiveObjectsAreTheWindow | src/mdworkbench.rs:264-357 | for every interleaving, the objects of each (owner, data set) are exactly the indices from the progress of its deleter up to precreate plus the progress of its creator, each with the pattern of its owner and item number |
| Workbench.NoErrors | src/mdworkbench.rs:264-357 | for every interleaving of precreate, any number of iterations and cleanup of such a configuration: zero errors, every stat, read, verification, delete and create succeeds |
| Workbench.CreatesAreFresh | src/mdworkbench.rs:335-338 | a create never meets an existing object, a delete always meets one |
| Workbench.IterationMovesWindow | src/mdworkbench.rs:389-391 | after iteration k every window is `[k * num, k * num + precreate)`, or unmoved if only reads were asked for |
| Workbench.NothingIsLeft | src/mdworkbench.rs:396-419 | when all ranks are through, no object, data-set directory or output directory is left and as many deletes as creates were counted |
| WorkbenchReport.ReportIsExact | src/mdworkbench.rs:234-419 | for every schedule, whenever all ranks wait for the end of a phase, the five counters of the report are exactly what they were asked to do: `threads * dsets * num` stats and reads for each iteration over, as many deletes and creates unless only reads were asked for, and the precreated objects created and at the end deleted |
| WorkbenchReport.StatErrsIff | src/mdworkbench.rs:284-294 | in any state, a stat is an error exactly if the object is not there, and the rank then goes on with the next data set |
| WorkbenchReport.ReadErrsIff | src/mdworkbench.rs:299-319 | a read is an error exactly if the object is missing, too short, or with verification does not start with its pattern; the rank goes on in any case |
| WorkbenchReport.ChangeErrsIff | src/mdworkbench.rs:323-353 | a delete is an error exactly if the object is missing, a create exactly if its data-set directory is; neither then changes anything |
| WorkbenchReport.WrittenIs | src/mdworkbench.rs:338-342 | creating over an existing object writes the pattern at its start and keeps what a longer one holds behind |
| Workbench.NeverErrsIff | src/mdworkbench.rs:264-357 | no schedule of a configuration counts an error if and only if there is no iteration or no data set, or `num <= precreate`, or objects are deleted, something is precreated and twice the offset is a multiple of the number of ranks |
| Workbench.OneRankDoesBoth | src/mdworkbench.rs:281-283 | in that last case the same rank deletes from a data set and refills it |
| Workbench.MissesAnObject | src/mdworkbench.rs:279-291 | for every other configuration a schedule that errs: one rank runs ahead of all others until it asks for an object that was never made |
| Fsx.RoundDownIsGreatest | src/fsx.rs:291-296 | rounding down gives the greatest multiple of the boundary that does not exceed the argument |
| FsxLaws.TrimOffIs | src/fsx.rs:1472-1474 | the trimmed offset lies inside the size and differs from the drawn one by a multiple of it, so one that lies inside is kept |
| FsxLaws.TrimLenIs | src/fsx.rs:1475-1480 | the trimmed length is the drawn one, or shorter so that the range ends with the size; a range that fits is kept |
| FsxLaws.SizeIs | src/fsx.rs:1169-1174 | the size is the fixed one, or the drawn number up to multiples of the operation length plus one |
| FsxLaws.TruncateToIs | src/fsx.rs:1194-1199 | the length for a truncation is the drawn number up to multiples of the maximal length, or the drawn size |
| FsxLaws.AlignDownIsGreatest | src/fsx.rs:485-487 | an aligned offset is the greatest multiple of the boundary that does not exceed it |
| FsxLaws.BlocksIs | src/fsx.rs:1277-1294 | collapsing and inserting use whole blocks, less than a block short at each end |
| FsxLaws.CollapseArgsIs | src/fsx.rs:1277-1280 | the range for collapsing is whole blocks and leaves at least one byte of the file behind it |
| FsxLaws.LeftOutIf | src/fsx.rs:1220-1228 | an operation is skipped exactly if it is optional and not enabled |
| FsxLaws.MapsBackIff | src/fsx.rs:523-565 | a mapped read comes back right exactly if its last page exists and every byte is the image's, those behind the end of the file reading as zero |
| FsxLaws.FindDestIs | src/fsx.rs:1493-1510 | the destination is the first drawn block that lies inside the limit and does not overlap the source; none if no try is acceptable |
| Fsx.Shadow.GenData | src/fsx.rs:331-340 | puts the pattern of the call counter and the original fill at exactly the range |
| FsxLaws.PatternByteIs | src/fsx.rs:331-340 | the byte at an even position is the call counter; at an odd one, the counter taken away gives back the original fill |
| FsxLaws.CallsDiffer | src/fsx.rs:331-340 | two calls less than 256 apart write different bytes at every position |
| FsxLaws.DrawnWrite | src/fsx.rs:1239-1242 | a write whose drawn range lies inside the maximal length puts the pattern at exactly that range and keeps every other byte |
| FsxLaws.PWriteAt | src/fsx.rs:503-521 | what a positional write does to each byte |
| FsxLaws.ZeroRangeAt | src/fsx.rs:731-755 | what zeroing a range does to each byte, with and without keep-size |
| FsxLaws.CollapseRangeAt | src/fsx.rs:778-793 | what collapsing a range does to each byte |
| FsxLaws.CopyRangeAt | src/fsx.rs:815-877 | what copying a range does to each byte |
| Fsx.Shadow.UpdateFileSize | src/fsx.rs:435-443 | sets the size and zeroes exactly a gap between the old end and the offset |
| Fsx.Shadow.CheckBuffers | src/fsx.rs:395-419 | sets the failure exactly if a byte read back differs from the shadow |
| Fsx.Shadow.DoRead | src/fsx.rs:485-501 | fails exactly if the call fails or the disk does not hold the shadow there |
| Fsx.Shadow.DoMapRead | src/fsx.rs:523-565 | the same for a mapped read, which also ends badly if it touches a page behind the file on disk, and whose look past the end of the file never reports |
| Fsx.Shadow.CheckPastEnd | src/fsx.rs:548-561 | the look past the end fails exactly if a mapped byte there is not zero |
| Fsx.Shadow.DoWrite | src/fsx.rs:503-521 | the shadow becomes the positional write of the pattern, gap included |
| Fsx.Shadow.DoMapWrite | src/fsx.rs:567-608 | the same through a mapping, with the truncation that precedes it |
| Fsx.Shadow.DoTruncate | src/fsx.rs:610-623 | the shadow is cut or extended by zeros to the aligned size |
| Fsx.Shadow.DoPreallocate | src/fsx.rs:660-697 | the shadow grows to the end of the range, keep-size or not |
| Fsx.Shadow.DoPunchHole | src/fsx.rs:699-729 | the hole, clipped to the file, reads as zero; the rest and the size stay |
| Fsx.Shadow.DoZeroRange | src/fsx.rs:731-755 | zeroes the range, and grows the file exactly without keep-size |
| Fsx.Shadow.DoWriteZeroes | src/fsx.rs:757-776 | the shadow becomes the positional write of zeros |
| Fsx.Shadow.DoCollapseRange | src/fsx.rs:778-793 | cuts the range out of the file |
| Fsx.Shadow.DoCopyRange | src/fsx.rs:815-877 | cloning and copying put the source bytes at the destination, gap zeroed, file grown as needed |
| Fsx.Shadow.DoInsertRange | src/fsx.rs:795-812 | exactly what the insertion leaves in the buffer, and the new size, which may exceed the maximal length: the tail is whatever the buffer held behind the file |
| Fsx.WriteImage | src/fsx.rs:503-521 | pattern first, gap second, is the positional write on the file |
| Fsx.GapThenWriteImage | src/fsx.rs:731-755 | gap first, data second, is the same positional write |
| Fsx.CopyImage | src/fsx.rs:815-877 | a copy inside the buffer is the copy on the file |
| Fsx.CollapseImage | src/fsx.rs:778-793 | moving the tail down inside the buffer is the collapse on the file |
| Fsx.InsertIsRightIff | src/fsx.rs:795-812 | the shadow of an insertion is the file with the range inserted if and only if the buffer already holds, behind the file, a copy of its last bytes |
| Fsx.InsertAfterWrite | src/fsx.rs:795-812 | inserting whole blocks into a file of whole blocks that one write made, with nothing behind it in the buffer, always makes the shadow wrong |
| Fsx.InsertLosesTheTail | src/fsx.rs:1239-1299 | the same as a run of the two operations from a fresh shadow, for all sizes and offsets in whole blocks |
| Fsx.KeepSizeIsRightIff | src/fsx.rs:686-690 | with keep-size the shadow agrees with the file if and only if the range lies inside the file |
| FsxRun.GenDestRange | src/fsx.rs:1481-1512 | the loop of 30 tries returns the first acceptable draw, or size 0 |
| FsxRun.Target | src/fsx.rs:1234-1316 | the file after an operation never exceeds the maximal length |
| FsxRun.DoReadOp | src/fsx.rs:1235-1251 | dispatches the two reads, plain if mapped reads are switched off |
| FsxRun.DoWriteOp | src/fsx.rs:1239-1264 | writes, mapped writes, truncation, preallocation: image and failure as specified for the file |
| FsxRun.DoHoleOp | src/fsx.rs:1265-1276 | punching, zeroing and writing zeros: image and failure as specified for the file |
| FsxRun.DoInsertOp | src/fsx.rs:1287-1299 | an insertion whose rounded length is 0 or whose offset is not inside the file changes nothing |
| FsxRun.DoCollapseOp | src/fsx.rs:1277-1286 | collapse over whole blocks: image and failure as specified for the file |
| FsxRun.DoCopyOp | src/fsx.rs:1300-1313 | clone and copy: image and failure as specified for the file |
| FsxRun.CheckContents | src/fsx.rs:881-891 | fails exactly if the disk does not hold the whole shadow |
| FsxRun.CheckSize | src/fsx.rs:420-433 | fails exactly if the file on disk has another size |
| FsxRun.Turn | src/fsx.rs:1152-1327 | one turn of the main loop, unless it inserts bytes or preallocates beyond the file with keep-size: the shadow becomes the specified file, and a failure is set exactly on a bad turn |
| FsxRun.Run | src/fsx.rs:1152-1327 | for all options, draws, outcomes of system calls and disk contents, up to the first draw that inserts bytes or preallocates beyond the file with keep-size: the run ends at the first bad turn and nowhere else, and until then the shadow is the specified file |
| FsxRun.CorrectFilesystemPasses | src/fsx.rs:1152-1327 | if every call succeeds and the disk holds the specified file after each turn, no turn is bad |
| FsxRun.ChecksCatchEverything | src/fsx.rs:1319-1324 | with both checks on, a turn is good if and only if its call succeeded and the disk holds the specified file, byte for byte and to its length |
| TaskClaim.FirstWaiting | src/sqlite.rs:1005-1011 | the select finds the first unstarted task of the client, or none |
| TaskClaim.Refines | src/sqlite.rs:968-1035 | each event of the protocol, deaths included, is one atomic claim or addition, or nothing: the transaction takes effect at its COMMIT |
| TaskRuns.EveryRunIsAtomic | src/sqlite.rs:968-1035 | every run of any number of processes is a run of the atomic specification |
| TaskClaim.SpecStepInv | src/sqlite.rs:1005-1020 | an atomic step keeps: handouts are right, each task at most once, lowest id first, nothing started without a handout, started tasks before waiting ones |
| TaskClaim.StepInv | src/sqlite.rs:968-1035 | every event, also an error or test recorded inside a transaction, keeps the invariant of the protocol: lock, working copies, handouts and counters |
| TaskClaim.ErrorsBalance | src/sqlite.rs:983-993 | what an event moves between a process, the working copy and the published database balances |
| TaskClaim.RecordInv | src/sqlite.rs:503-528 | recording, which the log callback of the database may do at any time, keeps the invariant |
| TaskClaim.AdvanceProcs | src/sqlite.rs:968-1035 | one step inside a transaction keeps every process and its working copy consistent with the published database |
| TaskRuns.EachTaskOnceAndInOrder | src/sqlite.rs:968-1035 | for every run: a task is handed out at most once ever, only to a process of its own client, and each client gets its tasks in the order of ids, even if processes share a client id |
| TaskRuns.StartedMeansHandedOut | src/sqlite.rs:1013-1020 | a task is marked started if and only if it was handed to a process |
| TaskTurns.HaltIsObeyed | src/sqlite.rs:994-1003 | a process that starts a turn while its client is to halt ends halted, with its counters in the database, its client deregistered and no task touched, whatever other processes do in between |
| TaskTurns.TaskIsTaken | src/sqlite.rs:1004-1021 | otherwise, if a task of its client waits, it runs the one with the lowest id, which is marked started and handed to it, and nothing else in the database changes but the counters |
| TaskTurns.NothingToTake | src/sqlite.rs:1028-1034 | if none waits it sleeps again and only its counters have moved |
| TaskTurns.GivesUpWaiting | src/sqlite.rs:1023-1027 | if none waits and it has waited too long it ends with one more error, which it takes with it, and deregisters its client |
| TaskTurns.WhoHaltsWasTold | src/sqlite.rs:994-1003 | over every run: a process that ended halted was told to, by halt flags set while it existed and its client was registered |
| TaskTurns.ScriptEnds | src/sqlite.rs:1037-1045 | the end of a script marks exactly its task, with a shutdown deregisters exactly its client, and makes the process ready again |
| TaskTurns.Undisturbed | src/sqlite.rs:968-1035 | nothing that other processes do changes what a process in a transaction works with |
| TaskClaim.DieInv | src/sqlite.rs:920-931 | a death at any point frees the lock, drops the working copy and keeps the invariant |
| TaskClaim.StartClientInv | src/sqlite.rs:1049-1084 | starting a client whose id is not registered keeps the invariant |
| TaskClaim.EndTaskInv | src/sqlite.rs:1037-1045 | marking a task ended keeps the invariant |
| TaskRuns.CountersAreConserved | src/sqlite.rs:981-993 | at any moment of any run the shared counters, the counters of live processes and what ended processes took with them add up to all errors and tests ever recorded |
| TaskRuns.SummaryMissesTheCarried | src/sqlite.rs:1433-1460 | with no client left the Summary line falls short of everything recorded by exactly what processes took with them |
| TaskRuns.SummaryIsExactIff | src/sqlite.rs:1433-1460 | it is exact if and only if no process took anything with it |
| TaskRuns.QuietRun | src/sqlite.rs:983-1003 | in a run where nothing is recorded inside a transaction, a process that leaves by the halt path takes nothing with it |
| TaskRuns.SummaryIsExact | src/sqlite.rs:994-1003 | so the Summary line is exact if every client left because it was told to halt and nothing was recorded inside a transaction |
| TaskRuns.DeathLosesCounts | src/sqlite.rs:1433-1460 | after any run, if a process dies with counters it has not flushed and committed, the Summary line is wrong whatever happens later |
| Glob.ClassEnds | src/sqlite.rs:243-286 | a class ends at the first `]` that is not its first member, and the pattern goes on after it; without one, or with a NUL in the pattern, it may stay open |
| Glob.ClassIsItsMembers | src/sqlite.rs:243-286 | without a `-` it accepts exactly the characters listed before that `]`, or with `^` exactly the others |
| Glob.ClassIsItsItems | src/sqlite.rs:243-286 | a class written as single characters and spans accepts exactly what these stand for, or with `^` exactly the others |
| Glob.SpanAccepts | src/sqlite.rs:266-275 | `[a-b]` accepts exactly the characters from a to b |
| Glob.NumberIs | src/sqlite.rs:287-302 | a number is an optional sign and all the digits behind it |
| Glob.NoNumber | src/sqlite.rs:287-302 | there is none exactly where neither a digit nor a sign with a digit stands |
| Glob.Digits | src/sqlite.rs:297-301 | the digits counted are the maximal run |
| Glob.SkipNumber | src/sqlite.rs:287-302 | the loop skips an optional sign and the maximal run of digits, or reports that there is none |
| Glob.ScanMembers | src/sqlite.rs:266-282 | the scan with its `prior` state decides membership in the union of single characters and ranges |
| Glob.MatchClass | src/sqlite.rs:243-286 | a class accepts exactly what its ranges cover, inverted by `^`, and rejects if unterminated |
| Glob.SkipRun | src/sqlite.rs:202-215 | a run of wildcards is skipped with one subject character for each `?` |
| Glob.MatchStar | src/sqlite.rs:201-236 | the code after a star decides as described by `DecidesAfterRun` |
| Glob.Inner | src/sqlite.rs:193-309 | for every pattern and subject the matcher ends and decides as described by `Decides`, including the two cases where that is not the intended meaning |
| Glob.StrGlob | src/sqlite.rs:192-313 | for every pattern without `[` or `#` after a run of wildcards that starts with a star, and every subject, the result is the declarative meaning |
| Glob.RunMatches | src/sqlite.rs:202-215 | star plus wildcards stands for any text of at least as many characters as there are `?` |
| Glob.SafePatternsMeanWhatTheySay | src/sqlite.rs:192-313 | on such patterns what the code decides and the declarative meaning are the same |
| GlobUnsafe.AgreesIff | src/sqlite.rs:192-313 | for every pattern with no class directly after a star, the code agrees with the meaning on every subject if and only if no `#` is directly after a star either, or the pattern is not live |
| GlobUnsafe.SomethingIsAcceptedIff | src/sqlite.rs:192-313 | such a pattern is live, which can be read off it (classes are closed, and no `#` is followed by what only a digit meets), if and only if the code accepts some subject |
| GlobUnsafe.Cheaper | src/sqlite.rs:226-235 | for each subject that the pattern means there is one that the code accepts and that weighs no more, and less if a number follows a star |
| GlobUnsafe.StarNumberFails | src/sqlite.rs:226-235 | the pattern `*#` rejects the subject `7` |
| GlobUnsafe.ClassAfterStarDisagrees | src/sqlite.rs:220-225 | for every pattern that starts with a star and has `[` after the run of wildcards, and then none of `*`, `?`, `#` and `[`, the code disagrees with the meaning on some subject |
| GlobUnsafe.ClosedClassDisagrees | src/sqlite.rs:220-225 | if that class is closed, also before `?` and `#` |
| GlobUnsafe.SimpleClassDisagrees | src/sqlite.rs:220-225 | if it is closed with no further `[` inside, whatever its first character is |
| GlobUnsafe.OpenClassAgreesIff | src/sqlite.rs:220-225 | if it is never closed, the code agrees with the meaning on every subject if and only if the text after the `[`, as a pattern, is met by every subject that is not empty |
| GlobUnsafe.PlainStartDoesNotMatter | src/sqlite.rs:193-309 | a plain character, `?` or closed class in front of a pattern does not change whether code and meaning agree on every subject |
| Script.TokenLength | src/sqlite.rs:541-613 | on a suffix that is not empty the length is between 1 and its length; the loops compute the specified length and the specified advance of the line counter |
| Script.TokenLinesIff | src/sqlite.rs:587-601 | the line counter moves on by the newlines of the token if and only if it is no quoted token with a newline between two quotes that do not close it; in that case by fewer |
| Script.LinesIff | src/sqlite.rs:541-613 | at the end of any script the counter has counted every newline if and only if no token hides one that way |
| Script.BlankEnds | src/sqlite.rs:546-576 | a blank token ends at a character that is neither blank nor the start of a comment |
| Script.WordEnds | src/sqlite.rs:602-611 | a word token holds no blank, quote or semicolon and ends at one |
| Script.LineLen | src/sqlite.rs:577-585 | a command token ends just after the first newline |
| Script.QuotedIs | src/sqlite.rs:587-601 | a quoted text without its quote inside, and without such a quote second behind the closing one, ends there |
| Script.TokensTile | src/sqlite.rs:541-613 | the tokens of every script, put together, are the script |
| Script.TokensAreNotEmpty | src/sqlite.rs:541-613 | no token is empty |
| Script.CommandInToken | src/sqlite.rs:626-643 | whether a command word starts here can be read off the token alone |
| Script.KindIs | src/sqlite.rs:626-648 | a token is of the kind `--if`, `--else`, `--endif` or `--end` if and only if the text starts with that command and a blank |
| Script.FindEnd | src/sqlite.rs:626-632 | the text that is left starts at the first token that is an `--end` |
| Script.FromEndIsFirst | src/sqlite.rs:625-632 | it skips exactly the tokens before the first `--end`, or all of them |
| Script.FindEndif | src/sqlite.rs:635-652 | the loop with its recursive calls leaves what the recursive definition leaves |
| Script.NestedThenRest | src/sqlite.rs:645-648 | counting from one level deeper is a nested search followed by counting from this level |
| Script.RecursionIsCounting | src/sqlite.rs:635-652 | the recursive search stops where a depth counter over the token stream stops |
| Script.SkipsToMatchingEndif | src/sqlite.rs:634-652 | that is just after the first `--endif`, or `--else` when asked for, before which every `--if` has its `--endif`; without one at the end |
| Terms.TermString.AppendTerm | src/sqlite.rs:328-357 | the buffer stays the print of all terms appended so far |
| Terms.TermString.AppendQuoted | src/sqlite.rs:342-356 | the loop over the quotes writes the text with each quote doubled, between quotes |
| Terms.PrintFirst | src/sqlite.rs:328-357 | the buffer built from the back is the first term, a blank and the print of the others |
| Terms.UnquoteDouble | src/sqlite.rs:342-356 | undoubling recovers a quoted text and what follows it |
| Terms.RoundTripIff | src/sqlite.rs:328-357 | decoding the buffer gives the list of terms back if and only if no term is the text `nil` and no unquoted term starts with a quote |
| Terms.MatchDecidesEquality | src/sqlite.rs:806-824 | for such lists equality of bytes is equality of results |
| Terms.AmbiguousTerms | src/sqlite.rs:332-340 | a text `nil` prints like a null, and the text of two quotes like the empty text, anywhere in a list |
| Terms.QuotedHalvesLookWhole | src/sqlite.rs:336-356 | for all texts a and b without blanks and anywhere in a result: two terms, a quote followed by a and b followed by a quote (with the quotes inside them doubled), print like the one term of a, a blank and b |
| Terms.PrintConcat | src/sqlite.rs:328-357 | the print of two lists is the two prints with a blank between them |
| MdtestTree.ItemPath | src/mdtest.rs:223-235 | the loop over parents computes the chain of directories of `item / items_per_dir` |
| MdtestTree.PrefixIsChain | src/mdtest.rs:229-232 | every prefix of a chain is the chain of its last directory |
| MdtestTree.NumDirsIsTheSum | src/mdtest.rs:605-611 | the closed form is the number of directories of all levels, 1 + b + ... + b^depth |
| MdtestTree.LevelOf | src/mdtest.rs:294-331 | level k holds exactly the numbers between the sums of the first k and k + 1 powers |
| MdtestTree.BelowIff | src/mdtest.rs:314-329 | the walk below a directory meets exactly the directories whose chain extends its own, down to the last level |
| MdtestTree.TreeIff | src/mdtest.rs:522-548 | the walk over the tree meets exactly the numbers 0 to num_dirs - 1, each under its own chain |
| MdtestTree.TreeDistinct | src/mdtest.rs:522-548 | it meets no directory twice |
| MdtestTree.WalkAgreesWithNumbers | src/mdtest.rs:297-331 | for every branch factor, depth and items-per-dir, all levels or leaves only: the walk visits an item if and only if its number is in `leaf_offset ..` for the capacity of the tree, under exactly the rebuilt path |
| MdtestTree.WalkVisitsOnce | src/mdtest.rs:297-331 | no item is visited twice |
| MdtestTree.ItemsLieInTheTree | src/mdtest.rs:522-548 | every item lies in a directory that the skeleton has |
| MdtestTree.Bounds | src/mdtest.rs:236-242 | the leaf offset is the number of items above the last level, and offset plus capacity is the number of all items |
| MdtestRun.World.WalkItems | src/mdtest.rs:297-331 | the recursion that mutates the world visits exactly the specified sequence of items |
| MdtestRun.World.ItemRange | src/mdtest.rs:333-381 | the loop visits the items of one directory in order |
| MdtestRun.CreateBelow | src/mdtest.rs:532-544 | below an existing directory every mkdir finds its parent and a free name |
| MdtestRun.CreateTree | src/mdtest.rs:522-531 | creation never fails and makes exactly the directories of the tree |
| MdtestRun.RemoveBelow | src/mdtest.rs:532-544 | children first, every rmdir finds an empty directory, and exactly the subtree goes |
| MdtestRun.RemoveTree | src/mdtest.rs:522-531 | removal leaves nothing |
| MdtestRun.SizesAgreeIff | src/mdtest.rs:604-650 | with one directory loop the later phases use exactly the items of the walk if and only if not both sizes were given or only one directory gets items; never more |
| MdtestLaws.SizesAre | src/mdtest.rs:604-650 | the sizes of a run: with only a number of items each directory gets the most that all can get; with only the items of a directory all get those; with both, the loops together use exactly the items given |
| MdtestLaws.RefusedIf | src/mdtest.rs:580-640 | exactly which arguments are refused: negative depth, no branches, items that are no multiple, fewer items than directories |
| MdtestRun.PhasesFindTheirItems | src/mdtest.rs:383-398 | every item a later phase looks for was visited by the walk under the path that the phase rebuilds |
| MdtestRun.StatPhase | src/mdtest.rs:383-398 | in order or shuffled, the phase misses exactly the rebuilt items that are not present |
| MdtestRun.PlaceThenStat | src/mdtest.rs:383-398 | after the walk the phase misses nothing |
| MdtestRun.ShiftIsABijection | src/mdtest.rs:202-204 | in each phase every rank's items are used by exactly one rank |
| MdtestLaws.ShiftedIs | src/mdtest.rs:202-204 | that is the rank `phase * nstride` further on, up to multiples of the number of ranks |
| MdtestRun.Shuffled | src/mdtest.rs:505-518 | whatever is drawn, the shuffle is a permutation |
| MdtestRun.ShuffledVisitsOnce | src/mdtest.rs:387-391 | a shuffled order visits every item exactly once |
| MdtestLaws.EveryOrderIsDrawn | src/mdtest.rs:505-518 | every order of the items comes out of the shuffle for some draws |
| RenameChain.RenamePhase | src/mdtest.rs:439-468 | for distinct present names and an absent spare name, exactly these renames are done, item 0 to the spare name, each other to its predecessor's, the spare name to the last but one: every rename has a present source and an absent target; at the end exactly the original names exist, the first n-1 contents rotated by one, the last and all others unchanged |
| RenameChain.RenameItems | src/mdtest.rs:439-468 | the phase over the items of the tree under the names it builds, in a directory where all names end with a digit: it meets those conditions with the `-XX` name, so the content is rotated |
| RenameChain.ItemNamesDiffer | src/mdtest.rs:223-235 | the names of all items differ, and end with a digit, as the `-XX` name does not |
| RenameChain.TrailingNumber | src/mdtest.rs:223-225 | the number at the end of a name can be read back |
| RenameChain.ItemNameIs | src/mdtest.rs:223-235 | a name is the root, the directories from the top down, the kind and the number |
| RenameChain.NextMove | src/mdtest.rs:455-465 | a middle step moves an item to its predecessor's name |
| RenameChain.LastMove | src/mdtest.rs:453-454 | the last step brings the spare name back and completes the rotation |
| RenameChain.RotationIsCyclic | src/mdtest.rs:436-438 | the rotation is one-to-one, and n-1 renaming phases put every item back |
| EntryLists.NamesDiffer | src/fsstress.rs:206-208 | tag and hexadecimal id determine each other's name: different components have different names |
| EntryLists.NameIsRead | src/fsstress.rs:200-212 | a name is the letter of its type and the id in hexadecimal |
| EntryLists.FindDir | src/fsstress.rs:211-213 | the lookup returns a listed directory with the id, or there is none |
| EntryLists.PathOf | src/fsstress.rs:199-209 | following parents ends; the path ends with the entry's own component |
| EntryLists.Bijection | src/fsstress.rs:199-213 | entries and nodes correspond one to one by their paths, and the fallback for a missing parent is never taken |
| EntryLists.Proc.GetFent | src/fsstress.rs:215-232 | the loops pick entry `r mod total` of all entries of the types |
| EntryLists.Proc.GenerateName | src/fsstress.rs:234-249 | the new path is free, its directory exists, and the id is used up |
| EntryLists.AddAgrees | src/fsstress.rs:251-257 | entering a new node keeps lists and tree in agreement |
| EntryLists.RemoveAgrees | src/fsstress.rs:703-705 | striking out a removed node keeps lists and tree in agreement |
| EntryLists.EmptyIsChildless | src/fsstress.rs:710-722 | a directory without nodes below it is no entry's parent |
| EntryLists.NothingBelow | src/fsstress.rs:710-722 | an entry that is no parent has no nodes below it |
| EntryLists.Proc.Create | src/fsstress.rs:439-506 | creating a node of any type fails only if the file system refuses, and otherwise enters the next id at the end of the list of that type, under the directory drawn, and adds one node with that path |
| EntryLists.WithoutTakesOut | src/fsstress.rs:703-705 | striking out takes exactly one entry out of its list and leaves the others in their places |
| EntryLists.Proc.Link | src/fsstress.rs:675-693 | linking needs a file, finds it, and adds one node of its type in the second directory drawn, with the next id |
| EntryLists.Proc.Unlink | src/fsstress.rs:695-708 | unlinking removes exactly the node and the entry of the file drawn |
| EntryLists.Proc.Rmdir | src/fsstress.rs:710-722 | removing the directory drawn succeeds if and only if it is no entry's parent and the file system is willing, and removes exactly its node and entry |
| EntryLists.Proc.Rename | src/fsstress.rs:724-744 | renaming moves exactly the file drawn to the next name in the second directory drawn, and its entry to the end of its list |
| EntryLists.Proc.Run | src/fsstress.rs:439-744 | after any sequence of operations, each of which may fail, lists and tree are what the operations make of them one after the other, and agree: ids unique and below `nameseq`, parents listed with smaller ids, paths in bijection with the tree |
| EntryLists.LongestPathsFirst | src/fsstress.rs:1101-1102 | the order of the cleanup: all paths, longest first |
| EntryLists.DeeperIsLonger | src/fsstress.rs:1102 | a path below another is longer as text |
| EntryLists.TextLenIs | src/fsstress.rs:1102 | the key of the order is the length of the path as text |
| EntryLists.Proc.Cleanup | src/fsstress.rs:1100-1117 | one pass over everything ever created, longest first, empties the tree; the passes after it find nothing |
| EntryLists.Proc.RunThenCleanup | src/fsstress.rs:1100-1117 | after any run the cleanup leaves only the base directory |
| SmallfileDirs.MkSeqDirName | src/smallfile.rs:283-299 | the two loops compute the numeral of `file_num / files_per_dir` in base dirs-per-dir |
| SmallfileDirs.NumeralIsCanonical | src/smallfile.rs:283-299 | its digits are below the base, it has no leading zeros, and folding them gives the number back |
| SmallfileDirs.NumeralsAreUnique | src/smallfile.rs:283-299 | a numeral without leading zeros is determined by its number |
| SmallfileDirs.LevelsNeverExceed | src/smallfile.rs:286-290 | with a base of 0 or 1 that does not exceed the number, the guard of the first loop stays true for ever |
| SmallfileDirs.ComponentsDiffer | src/smallfile.rs:295-297 | different numbers give different component names |
| SmallfileDirs.ComponentIsRead | src/smallfile.rs:295-306 | a component is the prefix and its number in decimal with at least three digits |
| SmallfileDirs.MkHashedDirName | src/smallfile.rs:300-310 | the loop that inserts at the front computes the hashed path |
| SmallfileDirs.HashedIs | src/smallfile.rs:304-308 | a hashed path has a component for each power of the base by which the directory number, divided, is still more than 1, and that component is the hash of the quotient |
| SmallfileDirs.HashedDirNumIs | src/smallfile.rs:302-303 | the hashed directory number is the block of files-per-dir that holds the hash of the file number below iterations |
| SmallfileDirs.SequentialNamesAreInjective | src/smallfile.rs:283-299 | two files share a directory if and only if they have the same directory number, which the path encodes |
| SmallfileDirs.FilesPerDirectory | src/smallfile.rs:284 | no directory holds more than files-per-dir files |
| SmallfileDirs.SubdirectoriesPerDirectory | src/smallfile.rs:282-310 | no directory has more than dirs-per-dir subdirectories, sequential or hashed |
| SmallfileDirs.SubdirFileNums | src/smallfile.rs:267-274 | exactly the file numbers 0 to iterations, or the multiples of files-per-dir below iterations plus files-per-dir |
| SmallfileDirs.EveryFileIsCovered | src/smallfile.rs:265-274 | the directory of every file from 1 to iterations is among those made, under an index inside the table of names |
| SmallfileDirs.MakeAllSubdirs | src/smallfile.rs:676-692 | makes exactly the needed directories and those on the way to them |
| SmallfileDirs.WalkUp | src/smallfile.rs:706-724 | after the walk from one directory everything left leads to a directory that is still to come |
| SmallfileDirs.CleanAllSubdirs | src/smallfile.rs:694-728 | without files nothing is left below the root, for sequential and hashed names and in whatever order the set is visited |
| SmallfileDirs.MakeThenClean | src/smallfile.rs:676-728 | a whole cycle: each file has its directory in between, only the root at the end |
| SmallfileData.BuildBiggestBuf | src/smallfile.rs:317-332 | ten doublings and a tail give 2^20 + 1024 bytes with period 1024 |
| SmallfileData.RecordSize | src/smallfile.rs:250-257 | the record size asked for, or that of the whole file, but at most 1024 kilobytes, and positive whenever there can be anything to write |
| SmallfileData.WriteRecords | src/smallfile.rs:760-769 | whatever the record size, the loop writes the image at the file's offset, in as many records as are needed; all slices are in bounds |
| SmallfileData.ReadRecords | src/smallfile.rs:822-856 | whatever the record size, a verified read succeeds if and only if the file is long enough and holds the image; a difference is reported at the first wrong byte, counted from the start of its record |
| SmallfileData.FirstDifference | src/smallfile.rs:843-847 | the reported position is the first that differs |
| SmallfileData.OverlayImage | src/smallfile.rs:791-811 | writing the image at a multiple of 1024 over the image gives the image |
| SmallfileData.Workload.DoCreate | src/smallfile.rs:753-779 | an existing file fails the run and is left alone, a new one is the image |
| SmallfileData.Workload.DoWrite | src/smallfile.rs:791-820 | append writes at the end, overwrite at the start, truncation first empties the file |
| SmallfileData.Workload.Perform | src/smallfile.rs:753-820 | each operation keeps the file an image of whole periods, of the expected length |
| SmallfileData.Workload.RunThenRead | src/smallfile.rs:753-856 | after any sequence of create, append, overwrite and truncate-overwrite with any record sizes, a verified read with any record size succeeds exactly if it stays within the file |
| Calendar.DayNumberIsInverted | src/smallfile.rs:417-428 | every day number, negative ones included, gives a real date, whose day number it is |
| Calendar.DateIsInverted | src/smallfile.rs:417-428 | every real date is the date of its day number |
| Calendar.DayZero | src/smallfile.rs:417-428 | day 0 is 1970-01-01 |
| Calendar.DaysFollowTheCalendar | src/smallfile.rs:417-428 | each day is followed by the next date of the calendar |
| Calendar.DatesAreInOrder | src/smallfile.rs:417-428 | day numbers are in the order of their dates |
| Calendar.YearOfEra | src/smallfile.rs:421 | the quotient with its three corrections is the year of the 400-year era |
| Calendar.MonthAndDay | src/smallfile.rs:424-427 | the month and day formulas hit a real day for each day of a year that starts in March |
| Calendar.EarlierSortsFirstIff | src/smallfile.rs:404-415 | of any two time stamps the earlier one sorts first as text if and only if its year is at most the number that the first digits of the later year make, as many as the earlier year has |
| Calendar.TimeStampsSort | src/smallfile.rs:404-415 | while the years have the same number of digits, the order as text is the order of time |
| Calendar.YearTenThousandSortsFirst | src/smallfile.rs:409 | the last second of the year 9999 does not sort before the first of 10000 |
| Calendar.PaddedIsDigits | src/smallfile.rs:409-414 | a number that fits is printed with exactly its width |
| Calendar.StampIsReadBack | src/smallfile.rs:404-415 | reading the fields of a time stamp back gives the second it was made from, and its separators stand where they have to |

## Left out

- Processes, pipes, timeouts, reports, command lines, logging, latencies, rates and real system calls: they run other code.
- The suites that wrap other programs (src/fio.rs, src/ltp.rs, src/pjdfstest.rs, src/git.rs, src/fsmark.rs, src/stdfs.rs) and src/main.rs: they start other programs and collect what those report.
- Widths of machine integers: all numbers are unbounded. In particular the product that computes directory levels in smallfile and the powers in mdtest are not checked for overflow.
- mdworkbench: ranks that leave a phase by an I/O error without counting as finished (src/mdworkbench.rs:342), a start item other than 0, single phases, and the stonewall without wear-out inside the FIFO model. The barriers between two phases, with no file operation in between, are one barrier.
- Workbench.RunInv: asks for at least one rank, contents of the configured size, and a configuration that never errs in the sense of `Workbench.NeverErrsIff`; how a run goes on after its first error is not followed further.
- WearOut.BoundedMoves: bounds the moves besides spinning; fairness of the scheduler itself is not modelled.
- fsx: the simulated operation count, injected failures, pollution behind the end of the file, lite mode, replay, closing and reopening, the alignment used on other systems than Linux, and the log.
- FsxRun.Run: ends before the first turn that inserts bytes, or preallocates beyond the file with keep-size, because then the shadow is wrong; what such a turn does is stated by the lemmas of Fsx.
- Fsx.Shadow.DoInsertRange: asks for a range that starts inside the file to lie inside it; otherwise the original stops with an index error. A result above the maximal length is included.
- Fsx.Shadow.DoMapRead: the signal for a page behind the file ends the original; here it counts as a failure.
- GlibcRandom in src/fsx.rs: its numbers are arbitrary draws here.
- mptest: the database engine is assumed to have serialisable immediate transactions with atomic commit and rollback; polling of wait_for_client, SQL evaluation and option parsing are left out. A COMMIT that is busy is retried and is no event.
- TaskRuns.EachTaskOnceAndInOrder: a process that deregisters its client and goes on is included, so the order is per client id, not per process.
- Glob.SafePatternsMeanWhatTheySay: goes one way; `GlobUnsafe.AgreesIff` adds the other for patterns with no class after a star.
- GlobUnsafe.ClosedClassDisagrees: says nothing about a closed class after a star whose first member is `*` or `[` and which holds another `[`. Such a pattern can agree with its meaning.
- GlobUnsafe.PlainStartDoesNotMatter: is about what stands in front of a pattern; a class after a star that follows another star or a number is not covered.
- Script.TokenLength: the closing of quoted tokens follows the code, which looks at the second character after a quote.
- Terms.MatchDecidesEquality: is about lists without the ambiguous terms; outside it two lists can print alike, as the lemmas after it show.
- mdtest: unique-dir mode, more than one directory loop, the stonewall, contents of files.
- MdtestRun.SizesAgreeIff: is about one directory loop.
- RenameChain.RenameItems: takes the directory that holds the tree to have only names that end with a digit, as those of the tree and of the items do.
- fsstress: several threads, kinds of device nodes, data operations and extended attributes, which do not change the tree.
- EntryLists.Proc.Cleanup: a removal succeeds whenever it can.
- smallfile: shared directories, pauses, the stonewall and the other operations.
- SmallfileDirs.MakeThenClean: asks for at least two directories per directory; with one, the original ends only for directory number 0, as `SmallfileDirs.MkSeqDirName` and `SmallfileDirs.LevelsNeverExceed` say.
- SmallfileData.Workload.DoRead: an absent file is not read; the original reports it.
