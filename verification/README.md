# runit: supervision and logging, verified

A Dafny model of the parts of runit that everything else leans on: the log writer svlogd, the
supervisor runsv, the directory watcher runsvdir, process 1, and the small C library under them.
Each core file of the source has a module here in the form the code has: classes whose methods
update fields, loops over arrays, functions for what is specified about them. `dafny verify
dfyconfig.toml` checks all of it.

| file | what it is about |
|---|---|
| `Bytes`, `Tai`, `Labels` | machine words, lexicographic order, TAI64NA arithmetic, packing, the hexadecimal labels svlogd sorts its files by |
| `LogSpec`, `Retention`, `LogDirs` | svlogd's log writer: as a machine over accepted writes with its laws over whole runs, the files it retains, and the class with the output buffer whose write callback may rotate and flush the same buffer again |
| `Match`, `Svlogd` | svlogd's patterns and rules, and its record loop from standard input to the files |
| `Status`, `RunsvSpec`, `RunsvLaws`, `Runsv` | the status record across runsv and sv, the supervisor as a state machine, what the manual promises of it letter by letter and over runs, and its code |
| `Runsvdir`, `RunsvdirLaws` | the service table, its scans and how fast they settle; which runsv processes are started and signalled |
| `Strallocs`, `Environs`, `Allocs` | growing strings, the environment merge, the static arena |
| `InBuffers`, `Subgetopt`, `Decimals` | the input buffer, the option parser, decimal numbers |
| `Pid1` | the stages of process 1 |

Bytes are 0 to 255, `unsigned int` has 32 bits, `unsigned long` and `uint64` have 64; wrap-around
is written out where the code uses it. What the system decides (how much write or read takes,
whether it fails or is interrupted, which child ended with which status, what a directory lists,
whether memory is to be had, what the clock says) is an argument or an arbitrary choice, so every
statement is about all of it. Retry loops that may never end are bounded by such a choice; in
`LogDirs` running out of it sets `blocked`, which stands for a process that hangs there, and the
contracts say what is on disk then.

A method is proved to compute a function on values, and that function is proved to keep laws stated
in the terms of the manuals and file formats, with their letters, digits and numbers written out.

## What the code does that its documentation does not say

Where the two disagree the model follows the code.

* svlogd, asked to exit, drops the line whose bytes were the last in its input buffer even if its
  newline came (utils/svlogd.c:916): a finished line is lost if and only if exit was due when its
  newline was read and that newline was the last buffered byte (`Svlogd.Logger.Turn`, which names waits
  that do it). -r and -R clean only the first linemax bytes of a line.
* With a nonzero sizemax a record is written whole if and only if it is no longer than sizemax and
  `current` has room for it or is full (`LogSpec.RecordWholeIff`). Between records there is always room
  for linemax bytes if sizemax is at least linemax, so only the first record of a run can be cut then.
  svlogd(8) only advises a size of twice the length.
* More than nmax old files at the start stay more than nmax: each rotation deletes one.
* pmatch agrees with the manual's relation, among patterns without a plus, exactly on those without
  two stars in a row, and, among patterns whose part before the first plus is of that kind and does
  not end in a star, exactly on those without a plus. On patterns with pluses that do not repeat the next
  character, and stars before ordinary ones, it accepts besides exactly the texts that end at a plus
  (`Match.SteadyAgrees`), one of the two ways depending on the byte in memory behind the text. A plus takes
  a run whole.
* runsv's `k` marks a service down whether or not its child lives. Exactly if a child is recorded, be it
  ./run or a ./finish that gets no signal at all, `u` then starts a second child beside it and forgets it,
  and `x` leaves it behind (`RunsvSpec.KillThenUp`, `KillThenExit`). A run without ./oneshot stays free of
  this if and only if no `k` in it finds a child (`RunTidyIff`). The status file stays as it was.
  ./finish exiting 111 turns a wish to exit into a wish to be down, and `o` does not start a oneshot service
  that is done (`RunsvLaws.DoneCommanded`), which runsv(8) says of any service not running.
* runsvdir takes the errno of a failed fork for one of readdir: the scan removes nothing and is
  repeated. A failed stat of a later name clears it, so that a fork that failed for a service already
  in the table is not retried (`Runsvdir.FailedForkForgottenIff`). Nor is a directory that cannot be opened.
* runit(8) says that a first stage that crashes skips the second and that a second that crashes is
  restarted. The tests stand inside a test for a nonzero exit code, so for a kernel's statuses only
  the exit codes 100 and 111 count. (The program has four stages, 0 to 3; the ones meant are 0, 1 and 2.)
* A removal from the environment works if and only if the name was there at most once; a setting, if the
  name was there at most once or the old string that then comes first says the same; and with a name given
  twice, a change to another name changes what it means if and only if the swap brings the later string
  to the front (`Environs.RemovalWorksIff`, `SettingWorksIff`, `OtherNamesKeepMeaningIff`).

## Model

| member | source | states |
|---|---|---|
| `LogDirs.LogDir.PWrite` | utils/svlogd.c:366-428 | one call of the write callback: the rotation of a full file before it, an offer that never passes sizemax, a short write, and the early rotation after a newline, as one step of the log machine; if a retry loop never ends, how far it got |
| `LogDirs.LogDir.MakeRoom` | utils/svlogd.c:370-375 | after the rotation of a full `current` at least one byte is offered, never more than fits below sizemax |
| `LogDirs.LogDir.Settle` | utils/svlogd.c:423-426 | the early rotation happens exactly when the last byte is a newline and `current` is within linemax of sizemax, the difference taken unsigned |
| `LogDirs.LogDir.Write` | utils/svlogd.c:376-421 | write(2) appends some first part of what it is offered, at least a byte unless it never succeeds |
| `LogDirs.LogDir.Rotate` | utils/svlogd.c:298-364 | a rotation reached from inside the buffer's own callback finds the buffer empty, so its nested flush writes nothing; `current` becomes the last old file, an empty one is left alone, and the timer moves on only if it was due |
| `LogDirs.LogDir.FreeName` | utils/svlogd.c:311-323 | the name chosen is the label of the last clock reading and no file has it |
| `LogDirs.LogDir.Reschedule` | utils/svlogd.c:325-330 | a timer that was due is set to now plus tmax seconds, computed in place; one that was not is left alone |
| `LogDirs.NextRotationIs` | utils/svlogd.c:325-330 | a timer that is not due stays; one that is due is set tmax seconds ahead of the clock, unless the second overflows |
| `LogDirs.LogDir.RenameCurrent` | utils/svlogd.c:344-352 | `current` is moved to the free name, a new empty one opened, and the oldest file is deleted as rmoldest decides; the directory stays in step with the history of rotations |
| `LogDirs.LogDir.RmOldest` | utils/svlogd.c:260-296 | in whatever order the directory is read: processor leftovers go, and with more than nmax old files exactly the one whose name is lexicographically least; the 'A' sentinel never wins over a file |
| `LogDirs.LogDir.AllWrite` | libunix/buffer_put.c:8-25 | all bytes are handed to the callback in order, whatever it takes each time; if it stops for good, a first part of them |
| `LogDirs.LogDir.Flush` | libunix/buffer_put.c:27-35 | the buffer is empty before the callback is entered; an empty buffer changes nothing at all |
| `LogDirs.LogDir.Put` | libunix/buffer_put.c:55-77 | the text follows everything put before, on disk or in the buffer; text that fits is only stored |
| `LogDirs.LogDir.PutAlign` | libunix/buffer_put.c:37-53 | the same for the variant that fills the buffer to the brim before each flush |
| `LogDirs.LogDir.PutFlush` | libunix/buffer_put.c:79-83 | the same, and the buffer ends up empty |
| `LogDirs.LogDir.PutC` | libunix/buffer.h:29-33 | one byte, stored if there is room, else put |
| `LogDirs.LogDir.RotateNow` | utils/svlogd.c:697-701 | a rotation on SIGALRM leaves `current` empty, its bytes in one more file if there were any; it puts nothing, loses nothing and keeps the room for a record |
| `LogDirs.LogDir.RotateIfOld` | utils/svlogd.c:712-720 | `current` is rotated if its timer is due at the look, and else nothing at all happens; afterwards the timer is not due, unless the clock is within tmax of its end |
| `LogDirs.LogDir.constructor` | utils/svlogd.c:581-582 | at the start the timer stands tmax seconds after the clock and the buffer is empty |
| `LogDirs.LogDir.OnDisk` | utils/svlogd.c:260-358 | every log directory this code produces has that property |
| `LogDirs.HandedOn` | libunix/buffer_put.c:8-83 | what callers may rely on composes: two texts handed over one after the other are one text handed over |
| `LogDirs.HandedCut` | libunix/buffer_put.c:8-25 | a writer that stopped for good has on disk a first part of everything handed over |
| `LogSpec.AfterKeeps` | utils/svlogd.c:366-428 | a text written in any pieces with any rotations extends the byte stream on disk by exactly that text, changes no rotated file and lets no file outgrow sizemax |
| `LogSpec.RunConserves` | utils/svlogd.c:298-428 | over every run all files ever rotated, in order, deleted ones included, and then `current` hold exactly the bytes there at first and the bytes written: none lost, repeated or reordered |
| `LogSpec.RunExtends` | utils/svlogd.c:298-428 | over every run rotated files never change again and no file outgrows sizemax |
| `LogSpec.RecordInOnePiece` | utils/svlogd.c:366-428 | a record for which there is room goes into one file in one piece, however write splits it up |
| `LogSpec.RecordRotatesIff` | utils/svlogd.c:423-426 | a record for which there is room goes into one file, which is rotated behind it if and only if it has then come within linemax of sizemax, and linemax is not the larger one |
| `LogSpec.RotatedIfDue` | utils/svlogd.8:68-79 | writing rotates only files that have sizemax bytes, or end in a newline within linemax of it: none if sizemax is 0 |
| `LogSpec.OfferedIsMost` | utils/svlogd.c:370-375 | write is offered everything, or else what fills `current` to sizemax exactly, and something in any case |
| `LogSpec.NewlineMakesRoom` | utils/svlogd.c:423-426 | after a newline there is room in `current` for linemax bytes, if sizemax is at least linemax |
| `LogSpec.RecordsStayWhole` | utils/svlogd.c:366-428 | over every run a record of at most linemax bytes that starts where a record ended lies in one file forever, with any short writes and with rotations before and after it |
| `LogSpec.TooSmallSizemaxCuts` | utils/svlogd.c:370-375 | every record longer than sizemax is cut, although sizemax may be below linemax |
| `LogSpec.RecordWholeIff` | utils/svlogd.c:366-428 | a record is written whole if and only if it is no longer than sizemax and `current` either has room for it or is full already |
| `LogSpec.WholeForever` | utils/svlogd.c:298-358 | a stretch of the stream that lies in one file stays in one file as files are rotated and grow |
| `LogSpec.StoppedKeeps` | utils/svlogd.c:376-421 | wherever the writer stops for good, the disk holds what was there and a first part of what was to be written |
| `Retention.KeepsTheMostRecent` | utils/svlogd.c:260-358 | if the clock never goes back and the files at the start are no newer than it, the old files on disk are exactly the most recently rotated ones; they are at most nmax if and only if they were at the start, an excess being never worked off |
| `Retention.DiskIsTheEnd` | utils/svlogd.c:260-358 | conservation and retention together: then the files on disk in the order of their names, and `current`, hold the end of all bytes there at first and written since, of which only the oldest are gone |
| `Retention.KeepsTheLatest` | utils/svlogd.c:260-296 | the same in terms of names that never go back in lexicographic order |
| `Retention.PurgeKeepsLatest` | utils/svlogd.c:290-295 | one rotation and one rmoldest keep the set of the latest files the latest |
| `Retention.PurgedIff` | utils/svlogd.c:258-296 | of the names of 27 bytes with '@' in front exactly those that end in 't' go, and the least other one if there are more than nmax; all other files stay as they are |
| `Retention.FileNameTells` | utils/svlogd.c:311-323 | the name of an old file is '@', 24 lower-case hexadecimal digits that denote second and nanosecond of the rotation, and .s |
| `Retention.InStepIsReplay` | utils/svlogd.c:311-352 | the directory a log writer leaves is the one its recorded rotations produce when replayed, each under a name no file had |
| `Retention.ClockGivesNames` | utils/svlogd.c:319-323 | clock readings that never go back give file names that never go back |
| `Svlogd.Logger.Run` | utils/svlogd.c:871-1005 | end to end: the bytes ever written are what was there and the records of the lines read, in order, and of the line a hanging process hangs in at most a first part; if the clock never goes back, the files still there and `current` hold the end of all that, in the order of their names, and only the oldest part was deleted; every byte read belongs to one of these lines or to the last bytes lost; unless the process is asked to exit every finished line of standard input is logged; the last line loses its newline too exactly if exit was due and the newline was the last buffered byte; no file outgrows sizemax; with linemax at most sizemax every record of at most linemax bytes lies in one file (the first one if there was room for it) |
| `Svlogd.Logger.Turn` | utils/svlogd.c:871-1005 | one line is read, matched and logged, or the process leaves: it leaves, and the line is lost, finished or not, if and only if exit is due after reading it and no byte is left in the input buffer; waits that lose a finished line are given, and so is the case in which nothing is read any more |
| `Svlogd.Logger.ReadHead` | utils/svlogd.c:875-916 | the turn up to the test whether to leave, and what that test means for the bytes read; with exit due between two lines nothing is read; with SIGALRM pending the line goes to an empty `current` |
| `Svlogd.Logger.ReadLine` | utils/svlogd.c:875-916 | the line is what was read up to its newline, linemax bytes or the end of input, cleaned byte by byte, with a time stamp taken at its first byte |
| `Svlogd.Logger.LogLine` | utils/svlogd.c:917-1004 | a selected line is written as stamp, prefix, cleaned head, uncleaned tail and newline; a deselected one is passed over; a record that fits stays whole |
| `Svlogd.Logger.WriteLong` | utils/svlogd.c:978-1004 | the tail of a line of linemax bytes or more is copied as it is read, while waiting for it may flush and rotate |
| `Svlogd.Logger.EndRecord` | utils/svlogd.c:1000-1002 | after the newline and the flush there is room for the next record, and what was pending lies in one file if it fitted |
| `Svlogd.Logger.Housekeeping` | utils/svlogd.c:692-720 | before each wait for input the buffer is flushed; after SIGALRM `current` is rotated, else exactly if its timer is due; the wait is called off exactly if exit is due between two lines, and reads single bytes exactly if it is due within one |
| `Svlogd.Logger.Receive` | utils/svlogd.c:721-737 | a wait lets in the signals it brings, SIGTERM as exit due, SIGALRM as a rotation due, and reads what the outside world gives, just a byte if asked for; whether a line is complete is what its last byte says |
| `Svlogd.Logger.Fill` | libunix/buffer_get.c:7-18 | an interrupted wait is tried again, so that the first one not interrupted decides what is read; with SIGALRM pending `current` is rotated first; with exit due between two lines nothing is read |
| `Svlogd.Logger.GetC` | utils/svlogd.c:692-738 | each byte of standard input is delivered once, in order: the first of what was coming, buffered or not; the waiting in between is harmless to the log |
| `Svlogd.RecordIsRecord` | utils/svlogd.c:971-1002 | what is written for a line has its only newline at its end |
| `Svlogd.RecordShows` | utils/svlogd.c:971-1002 | byte by byte: stamp, prefix, the line with its first linemax bytes cleaned and the others not, newline |
| `Svlogd.CleanReplaces` | utils/svlogd.c:903-914 | with -r exactly the bytes outside of ' ' to '~' are replaced, with -R those of its set, too |
| `Svlogd.SelectedIff` | utils/svlogd.8:285-313 | a line is selected if and only if the last rule with '-' or '+' that accepts its cleaned first linemax bytes is one with '+', or there is none |
| `Svlogd.StampTells` | utils/svlogd.c:884-901 | a stamp is '@', 24 hexadecimal digits and a space |
| `Match.PMatch` | utils/pmatch.c:2-48 | the scan computes the single left-to-right pass over the memory from the pattern on, also for a plus at the pattern's end; on simple patterns that is the manual's relation, on steady ones, which may have any number of '+', the relation or an end at a '+' |
| `Match.SteadyAgrees` | utils/pmatch.c:2-48 | on every pattern in which a star stands before an ordinary character or ends it, and a plus before one that is not the next character, too, the pass accepts exactly the texts of the manual's relation and those that end at a '+': behind its character, or in front of it with that character behind the text in memory |
| `Match.SimpleAgrees` | utils/pmatch.c:2-48 | although it never backtracks, on patterns without '+' and without two stars in a row the pass accepts exactly the texts of the manual's relation |
| `Match.AgreesExactlyWhenSimple` | utils/svlogd.8:320-334 | among patterns without '+', those on which code and manual agree for all texts are exactly those without two stars in a row |
| `Match.AgreesExactlyWithoutPlus` | utils/pmatch.c:20-29 | among patterns whose part before the first '+' is simple and does not end in a star, those on which code and manual agree for all texts in all memories are exactly those without '+' |
| `Match.PlusAcceptsTooMuch` | utils/pmatch.c:20-29 | every such '+' makes the code accept a text that ends where the '+' stands, against the manual, if the byte behind the text in memory is the repeated one |
| `Match.PlusAcceptsTooLittle` | utils/pmatch.c:20-29 | whenever the repeated character comes once more behind a '+', the code refuses all texts with any other character, though the manual accepts those whose rest matches |
| `Match.LogMatch` | utils/svlogd.c:769-792 | the walk over the NUL-separated blob visits exactly the rules appended to it and yields both verdicts |
| `Match.RuleHere` | utils/svlogd.c:790 | the search for the NUL ends at the end of the rule at hand, never in another one |
| `Match.BehindIsStored` | utils/svlogd.c:548-554 | the memory handed to the matching starts with the rule's pattern as a C string |
| `Match.VerdictIsLastWord` | utils/svlogd.8:285-313 | a verdict is the sign of the last rule, '-' or '+' for selection, 'e' or 'E' for standard error, whose pattern accepts the line, or the default if there is none |
| `Tai.TaiaAdd` | libtime/taia_add.c:7-22 | addition modulo 2^64 seconds, normalised, also when the result is one or both of the operands |
| `Tai.TaiaSub` | libtime/taia_sub.c:7-25 | subtraction modulo 2^64 seconds, normalised, under the same aliasing, its borrows detected by wrap-around |
| `Tai.TaiaLess` | libtime/taia_less.c:7-14 | on normalised times the comparison is the order of their values |
| `Tai.ShiftUndo` | libtime/taia_add.c:7-22 | addition and subtraction undo each other on all normalised times |
| `Labels.TaiPack` | libtime/tai_pack.c:5-25 | the eight bytes are the big-endian digits of the second; nothing else is written |
| `Labels.TaiaPack` | libtime/taia_pack.c:5-28 | second, nanosecond and attosecond one after another, big-endian |
| `Labels.TaiUnpack` | libtime/tai_unpack.c:5-25 | the number whose big-endian digits the bytes are |
| `Labels.PackUnpack` | libtime/tai_unpack.c:5-25 | unpacking what was packed gives the second back |
| `Labels.FmtTaia` | libtime/fmt_ptime.c:39-53 | the label of the time is written, which is '@' and 24 hexadecimal digits (LabelTells); nothing behind it is written |
| `Labels.LabelTells` | libtime/fmt_ptime.c:39-53 | a label is '@' and 24 hexadecimal digits in lower case; read back, the first sixteen denote the second, the last eight the nanosecond |
| `Labels.LabelLetters` | libtime/fmt_ptime.c:41-50 | digit by digit, the letters are those of 0123456789abcdef |
| `Labels.LabelOrder` | libtime/fmt_ptime.c:39-53 | labels sort as the times they show, whatever follows them, and are equal only for equal times |
| `Labels.LabelsSortByTime` | libtime/taia_less.c:7-14 | for clock readings the text order of labels and taia_less are the same order |
| `Bytes.StrDiff` | libbyte/str_diff.c:5-34 | the sign of the result is the lexicographic order of the two strings, zero exactly when they are equal |
| `RunsvSpec.EveryRun` | runsv/runsv.c:750-879 | in every run a running service has a child, a done one has none, and every signal goes to an unreaped child; in every run without `k` and ./oneshot there is at most one child, none is ever started beside another, down means no child, and the status file shows the state |
| `RunsvSpec.PassedSound` | runsv/runsv.c:750-879 | one pass of the main loop keeps both invariants |
| `RunsvSpec.CommandedSound` | runsv/runsv.c:518-596 | every command keeps the invariants but `k`: it unties state and child if and only if a child is recorded; at most the forked child is added |
| `RunsvSpec.RunTidyIff` | runsv/runsv.c:750-879 | over every run without ./oneshot: state and child agree after every command of every pass, with at most one child and none ever started beside another, if and only if every `k` finds no child recorded |
| `RunsvSpec.PassTidyIff` | runsv/runsv.c:750-879 | the same for one pass |
| `RunsvSpec.StartedSound` | runsv/runsv.c:419-517 | a start leaves a running service with the new child, and is a start beside an old child exactly when one was recorded |
| `RunsvSpec.ReapedSound` | runsv/runsv.c:794-839 | an exit removes exactly that child and keeps the invariants |
| `RunsvSpec.ExitTakesTwo` | runsv/runsv.c:750-879 | once `x` is accepted, with no further commands and no veto by ./finish, the main child exits at most twice, and after as many exits as RUN > FINISH > DOWN has steps left the service is down |
| `RunsvSpec.QuietPass` | runsv/runsv.c:757-839 | each exit lowers that measure, nothing raises it, and while it is not zero there is a child to wait for |
| `RunsvSpec.ExitForgotten` | runsv/runsv.c:804-808 | a wish to exit is lost at an exit if and only if ./finish exits 111, which turns it into a wish to be down |
| `RunsvSpec.LeavesEmpty` | runsv/runsv.c:866-878 | the process leaves only when neither service has a child, if no `k` finds one |
| `RunsvSpec.DownLeaves` | runsv/runsv.c:866-878 | a service that is down and to exit leaves in one pass, or tells the log service to end and waits for it |
| `RunsvSpec.KillThenUp` | runsv/runsv.c:557-560 | `k` and then `u`, with no exit reported in between, start a child beside the one recorded, ./run or ./finish, and forget that, if and only if one was recorded |
| `RunsvSpec.KillLeavesStatus` | runsv/runsv.c:557-560 | after `k` the status file shows the state before it, which is right exactly if the service was down |
| `RunsvSpec.KillThenExit` | runsv/runsv.c:557-560 | `k` and then `x` let the process leave at once, and it leaves a child behind if and only if one was recorded |
| `RunsvLaws.LetterWishes` | runsv/runsv.8:106-178 | for every letter and in every state: u makes the wish up, d and o down, x exit, unless it is the log service; no other letter changes it |
| `RunsvLaws.LetterSignals` | runsv/runsv.8:106-178 | for every letter: just the signals of the manual, in order, to the child or its group, if the service is running and no control script takes them; CONT is sent even then |
| `RunsvLaws.LetterChanges` | runsv/runsv.c:518-596 | for every letter: u and o start a service that is down, with the child forked; k makes the state down; p and c set the pause bit; TERM sets its bit; nothing else changes state, child or start time |
| `RunsvLaws.OneshotStops` | runsv/runsv.c:396-416 | a running service with ./oneshot gets TERM at d or x and is down at once, its child recorded still |
| `RunsvLaws.DoneCommanded` | runsv/runsv.c:526-553 | a oneshot service that is done: d and x make it down and signal nothing, u starts it, o does not |
| `RunsvLaws.KeptStarts` | runsv/runsv.c:757-761 | the top of the loop leaves no service that is wanted up, and no ./finish, without a child; a service with a child, or neither wanted up nor finishing, is not touched |
| `RunsvLaws.LifeCycle` | runsv/runsv.8:16-21 | after an exit of ./run the next pass starts ./finish if it exists; after its exit, or without it, ./run again if that is wanted, which exit code 111 of ./finish ends; else the service is down |
| `RunsvLaws.LogLifeCycle` | runsv/runsv.c:840-854 | the log service is started again after an exit unless it is wanted down or to exit |
| `RunsvLaws.StaysUp` | runsv/runsv.8:106-110 | over every run without d, o, x, ./oneshot and a veto of ./finish a service wanted up stays so, and has a child in every pass |
| `RunsvLaws.StaysDown` | runsv/runsv.8:106-121 | over every run without u and o a service that is stopped and not wanted up stays so, with no child ever |
| `RunsvLaws.LeftIff` | runsv/runsv.c:866-878 | the process leaves if and only if it is to exit, the service is stopped and the log service has no child; else, if only that child is left, the log service is told to end |
| `RunsvLaws.NeverLeavesUntold` | runsv/runsv.8:230-231 | over every run without x and SIGTERM the process does not leave |
| `RunsvLaws.TermLeaves` | runsv/runsv.8:218-223 | SIGTERM to the supervisor of a stopped service without log service ends it in the same pass |
| `RunsvLaws.ExitThenUp` | runsv/runsv.c:757-858 | within a pass commands see the exits, and starts come before both: with u a service that has just exited is started in the same pass, else in the next |
| `RunsvLaws.AnswersTell` | sv/sv.c:355-387 | for an orderly service sv's answers for d, u, p, c and C tell its state, and x is never answered |
| `RunsvLaws.DownIsReported` | sv/sv.c:363-365 | end to end: after d and the last exit the status file makes sv's wait for down succeed, and the service is wanted down |
| `RunsvLaws.OnceIsReported` | sv/sv.c:376-380 | end to end: a service started by o answers sv once, one started by u does not |
| `RunsvLaws.RestartIsReported` | sv/sv.c:369-375 | end to end: after t sv's wait fails until the child has exited and been started again, and then succeeds if and only if that was no earlier than sv began to wait |
| `Runsv.SvDir.Ctrl` | runsv/runsv.c:518-596 | the switch over command letters does to the record, the status file, the children and the signals sent what the state machine says; so it sets the manual's wish, and on a tidy service sends the manual's signals and starts the child that the manual says |
| `Runsv.SvDir.WishLetter` | runsv/runsv.c:526-553 | the letters d, u, x and o: the wish is shown before the service is stopped or started |
| `Runsv.SvDir.StateLetter` | runsv/runsv.c:557-570 | the letters k, p and c: the signal, and the change of the record whether or not it was sent |
| `Runsv.SvDir.StartService` | runsv/runsv.c:419-517 | ./run or ./finish is started; a child still there is stopped and forgotten, and that is recorded |
| `Runsv.SvDir.StopService` | runsv/runsv.c:371-394 | TERM unless a control script takes it, and CONT if the service is to go down or exit |
| `Runsv.SvDir.StopOneshotService` | runsv/runsv.c:396-416 | TERM, and the state is down whether or not the child is gone |
| `Runsv.SvDir.Reap` | runsv/runsv.c:794-839 | the main child's exit: ./finish next, or done, or down, with the veto of ./finish |
| `Runsv.SvDir.ReapLog` | runsv/runsv.c:840-854 | the log child's exit: down |
| `Runsv.SvDir.UpdateStatus` | runsv/runsv.c:277-319 | the status file is the encoding of the record |
| `Runsv.SvDir.constructor` | runsv/runsv.c:625-660 | the first state, noauto, log/down and oneshot considered; without oneshot it satisfies the invariant of tidy runs |
| `Runsv.Supervisor.LoopPass` | runsv/runsv.c:750-879 | one pass of the main loop is one step of the state machine and keeps its invariants; a service not told otherwise stays wanted up, one at rest stays at rest, and the process leaves only if told to |
| `Runsv.Supervisor.ReapChildren` | runsv/runsv.c:786-855 | exits of the main child, of the log child and of forgotten children, in the order reported |
| `Runsv.Supervisor.KeepUp` | runsv/runsv.c:757-761 | what is wanted up, and ./finish, has a child afterwards; the step is that of the state machine |
| `Runsv.Supervisor.Leave` | runsv/runsv.c:866-878 | the decision to leave or to let the log service end |
| `Status.StatusBytes` | runsv/runsv.c:277-299 | the 20 bytes are the encoding of the record |
| `Status.Decodes` | sv/sv.c:188-195 | the record in literal bytes: start second and nanosecond big-endian, pid little-endian, 0 or 1 for paused and for TERM sent, 'u' or 'd', and 0 to 3 for the state, and what sv takes from them is what runsv put in |
| `Status.StatusPid` | sv/sv.c:188-194 | the pid is the little-endian number at bytes 12 to 15 |
| `Status.Check` | sv/sv.c:336-394 | check succeeds exactly when every letter's predicate holds of the supervisor's record |
| `Status.CheckLetter` | sv/sv.c:355-387 | each letter's answer, read from the bytes, is its predicate on the record |
| `Status.FirstWord` | sv/sv.c:199-210 | online exactly when the state is not down, a done service included; want up exactly for a service that is down and wanted up; want down exactly for a finishing one, whatever is wanted, and for a running one that is not wanted up |
| `Runsvdir.SettlesInLogarithmicTime` | runsvdir/runsvdir.c:108-162 | rescans of an unchanged directory that fits make the table exactly the directory's key set once the number of complete scans exceeds the binary logarithm of the number of vanished entries, however many scans broke off and whichever children ended in between |
| `Runsvdir.ElevenScans` | runsvdir/runsvdir.c:108-162 | eleven complete scans are always enough |
| `Runsvdir.RoundHalves` | runsvdir/runsvdir.c:108-162 | a complete scan drops no service that is shown, adds none that is not, removes at least half of the vanished ones, keeps keys distinct and at most 1000, and asks for another scan if any had vanished |
| `Runsvdir.BrokenDropsNothing` | runsvdir/runsvdir.c:146-152 | a scan that breaks off at errno removes nothing, vanished or not, adds only what is shown, and is repeated |
| `Runsvdir.ErrnoIff` | runsvdir/runsvdir.c:109-146 | errno is set after the names exactly when some fork failed and no stat failed after it |
| `Runsvdir.QuietIff` | runsvdir/runsvdir.c:272-284 | a scan leaves check 0 if and only if it was complete and the table already was the directory |
| `Runsvdir.RoundFills` | runsvdir/runsvdir.c:120-144 | without vanished entries one complete scan makes the table the directory's key set, and a table that already is asks for no more |
| `Runsvdir.SweepConserves` | runsvdir/runsvdir.c:156-162 | removal by swapping in the last entry loses no entry and removes vanished ones only |
| `Runsvdir.SweepHalves` | runsvdir/runsvdir.c:156-162 | although the entry swapped in is skipped, at most half of the vanished entries are left |
| `RunsvdirLaws.SweepLeavesHalf` | runsvdir/runsvdir.c:156-163 | the bound is met: of a table of vanished entries the loop leaves half, rounded down |
| `Runsvdir.ScannedFacts` | runsvdir/runsvdir.c:108-145 | after marking and scanning exactly the entries not shown are marked; a shown service is missing only from a full table |
| `Runsvdir.RoundRunners` | runsvdir/runsvdir.c:120-144 | after a scan an entry has no runsv exactly if it had none and every fork for it failed |
| `RunsvdirLaws.RoundRunnerIs` | runsvdir/runsvdir.c:121-146 | after a scan a runner that ran still runs the same service; an entry without one has the first fork for its service that succeeded |
| `RunsvdirLaws.FirstRunnerIs` | runsvdir/runsvdir.c:121-146 | what that fork is: of the first name that shows the service and whose fork succeeds |
| `RunsvdirLaws.SignalledIff` | runsvdir/runsvdir.c:156-163 | a complete scan sends SIGTERM to exactly the runners of the services that leave the table |
| `RunsvdirLaws.EndedIsRestarted` | runsvdir/runsvdir.c:237-251 | after a runner has ended the next scan gives its service, if shown, the first fork that succeeds, and leaves the others their runners |
| `RunsvdirLaws.ForkFailsIff` | runsvdir/runsvdir.c:121-146 | a fork fails for a name exactly if a service in the table without a runner, or a new one that fits under the limit of 1000, is shown and the fork fails |
| `Runsvdir.FailedForkForgottenIff` | runsvdir/runsvdir.c:109-152 | a service in the table for which every fork fails is left without runsv and without a further scan if and only if readdir succeeded, the table is the directory, and each failed fork is followed by a failed stat, which clears errno |
| `Runsvdir.Watcher.Scan` | runsvdir/runsvdir.c:96-163 | the loops over the table compute that scan; a directory that cannot be opened changes nothing, an errno left by readdir or fork removes nothing and asks for another scan; TERM goes to the removed runners only |
| `Runsvdir.Watcher.Remove` | runsvdir/runsvdir.c:156-162 | the removing loop in place, which entries it leaves, whom it signals, and when it asks for another scan |
| `Runsvdir.Watcher.Visit` | runsvdir/runsvdir.c:110-144 | one directory entry: kept and restarted, added, or refused by a full table; and what becomes of errno |
| `Runsvdir.Watcher.RunSv` | runsvdir/runsvdir.c:70-94 | the entry gets the runner, or errno is set and nothing else changes |
| `Runsvdir.Watcher.Mark` | runsvdir/runsvdir.c:108 | every entry is marked and nothing else changes |
| `Runsvdir.Watcher.Collect` | runsvdir/runsvdir.c:239-253 | a child that ended leaves its entry without a runner and asks for a scan exactly if it was one |
| `Runsvdir.Watcher.CollectAll` | runsvdir/runsvdir.c:239-253 | the children that ended, in order, and whether one of them was a runner |
| `Runsvdir.Watcher.Pass` | runsvdir/runsvdir.c:237-297 | one pass of the main loop is the ends it collects and then a scan, exactly if check, one of the ends or a modification makes it due and the directory can be opened |
| `Runsvdir.Watcher.Turn` | runsvdir/runsvdir.c:272-290 | a scan happens exactly when check or a modification asks for it, and leaves check 0 exactly if it was complete and the table was the directory |
| `Strallocs.Stralloc.CatB` | libunix/stralloc_catb.c:6-14 | the text is appended, or nothing changes; length at most capacity; all copying so far at most 8 times the capacity and 240 + 9 times the largest request |
| `Strallocs.Stralloc.CopyB` | libunix/stralloc_opyb.c:6-13 | the text replaces the contents, or nothing changes |
| `Strallocs.Stralloc.Append` | libunix/gen_allocdefs.h:32-34 | one byte is appended, or nothing changes |
| `Strallocs.Stralloc.Ready` | libunix/gen_allocdefs.h:6-17 | room for n bytes with the contents kept, growing by an eighth; a failure leaves the contents, and a block there was with its capacity and length, as they were |
| `Strallocs.Stralloc.ReadyPlus` | libunix/gen_allocdefs.h:19-30 | room for n more bytes with the contents kept |
| `Strallocs.Stralloc.AllocRe` | libunix/alloc_re.c:6-19 | the new block starts with the old one's bytes, or nothing changes |
| `Environs.MergeMeans` | libunix/pathexec_env.c:51-67 | whatever else the inherited environment holds, a name that occurs at most once in it means in the built array what the last change to it says, or what it inherited; and it still occurs at most once |
| `Environs.ChangeCounts` | libunix/pathexec_env.c:55-65 | for every environment: a change takes one occurrence of its name away and adds one if it sets; every other name keeps all of its occurrences |
| `Environs.ChangeMeans` | libunix/pathexec_env.c:55-65 | one change does to any name that occurs at most once what it should |
| `Environs.RemovalWorksIff` | libunix/pathexec_env.c:56-64 | a removal works if and only if the name occurred at most once |
| `Environs.SettingWorksIff` | libunix/pathexec_env.c:56-65 | a setting works if and only if the name occurred at most once, or the old string that comes first then says the same |
| `Environs.DroppedMeans` | libunix/pathexec_env.c:59-62 | that old string is the last one of the array if it has the name, else the second with the name |
| `Environs.SettingShowsTheOther` | libunix/pathexec_env.c:59-65 | the shortest example: with a name given twice, setting it leaves it meaning the other old value |
| `Environs.OtherNamesKeepMeaningIff` | libunix/pathexec_env.c:56-65 | a change to one name leaves the meaning of another as it is, if and only if the swap does not bring a string with that other name and another value in front of its first one |
| `Environs.SwapShowsTheOther` | libunix/pathexec_env.c:60-61 | the shortest example: with a name given twice, removing another one changes what it means |
| `Environs.ChunkMeans` | libunix/pathexec_env.c:13-24 | a call with a name free of '=' is noted as exactly that setting or removal |
| `Environs.SameName` | libunix/pathexec_env.c:57-58 | comparing as many bytes as the name has and the '=' behind them is comparing names |
| `Environs.WalkOn` | libunix/pathexec_env.c:51-67 | the walk for NULs finds each noted chunk at its NUL, entire and in order |
| `Environs.WalkEnds` | libunix/pathexec_env.c:51-67 | and at the end of the text has found them all |
| `Environs.Environ.Env` | libunix/pathexec_env.c:13-24 | a call that returns 1 notes one chunk, a call that fails at any allocation notes nothing |
| `Environs.Environ.Run` | libunix/pathexec_env.c:26-70 | the strings passed on are the inherited ones with all noted chunks applied in call order, so that every name inherited at most once means what its last change says; or memory ran out |
| `Environs.Environ.Merge` | libunix/pathexec_env.c:51-67 | the in-place merge, which never indexes past the block counted beforehand |
| `Environs.Environ.Forget` | libunix/pathexec_env.c:56-63 | the first string with the chunk's name is overwritten by the last one; no string is read past its terminator |
| `Environs.Environ.Apply` | libunix/pathexec_env.c:55-65 | one chunk applied to the array in place |
| `Environs.Environ.Count` | libunix/pathexec_env.c:37-42 | the size counted is that of the inherited strings and the noted chunks |
| `InBuffers.InBuffer.Get` | libunix/buffer_get.c:52-61 | what was delivered so far followed by the unread bytes is what was read, for any short reads and interrupts; 0 only at the end of the input, all of it then delivered |
| `InBuffers.InBuffer.BGet` | libunix/buffer_get.c:41-50 | the same, never more than a block at a time |
| `InBuffers.InBuffer.Feed` | libunix/buffer_get.c:28-39 | the bytes read end up at the end of the block, moved up over themselves, with p + n constant |
| `InBuffers.InBuffer.GetThis` | libunix/buffer_get.c:19-26 | the first unread bytes are delivered and no longer unread |
| `InBuffers.InBuffer.OneRead` | libunix/buffer_get.c:7-17 | an interrupted read is repeated and leaves no trace |
| `InBuffers.InBuffer.GetC` | libunix/buffer.h:45-49 | one byte, the first of what was coming; nothing else of it is lost |
| `InBuffers.InBuffer.Seek` | libunix/buffer_get.c:68-72 | skipping peeked bytes counts them as delivered |
| `InBuffers.ByteCopyR` | libbyte/byte_cr.c:5-27 | the backward copy moves the old bytes also when the stretches overlap upwards; nothing else changes |
| `Subgetopt.Cursor.Next` | libunix/subgetopt.c:19-75 | each call takes the first item off what the recursive parser finds in the rest of the command line and shows it in the globals; no word is read past its terminator, none past argc; the pair of word and remaining letters falls; the word it stands at after a problem tells an unknown letter from a missing argument |
| `Subgetopt.Cursor.Letter` | libunix/subgetopt.c:45-75 | the part of a call behind the cursor |
| `Subgetopt.Cursor.Drive` | libunix/subgetopt.c:19-75 | calling until done yields exactly the parser's items and final optind, and ends |
| `Subgetopt.OptionsReadBack` | libunix/subgetopt.c:19-75 | options and unknown letters written as words read back in order, these as problems, and parsing goes on behind them |
| `Subgetopt.ParseStops` | libunix/subgetopt.c:31-45 | nothing is found exactly at the end of the command line, at a word that does not start with '-' or is just that, and at a word that starts with two, which alone is passed |
| `Subgetopt.MissingArgument` | libunix/subgetopt.c:53-66 | an option at the very end whose argument is missing is a problem, behind which nothing is left |
| `Subgetopt.LettersGroup` | libunix/subgetopt.c:45-75 | letters without argument may share a word |
| `Subgetopt.Scan` | libunix/subgetopt.c:47-72 | the scan of the option string finds the kind of the letter |
| `Subgetopt.TableReadsBack` | libunix/subgetopt.c:47-72 | a written option string is read as meant: the first entry for a letter decides |
| `Pid1.StagesInOrder` | pid1/runit.c:147-386 | every history of stages is a first part of 0, optionally 1, one or more 2, then 3, and all of it when 3 was entered |
| `Pid1.OnlyExitCodesCount` | pid1/runit.c:240-268 | for the statuses a kernel reports, the second stage is skipped only on exit code 100 and the third repeated only on 111; a crash does neither |
| `Pid1.Init.Run` | pid1/runit.c:147-386 | the stage loop computes, for any events, the stages, their ends and the pending signals that those events determine; it runs along a course and finishes exactly after the last stage |
| `Pid1.Init.Step` | pid1/runit.c:147-386 | one wake-up, and the next stage entered if it ended one |
| `Pid1.EndsHaveEvents` | pid1/runit.c:240-378 | each end of a stage has its own event, in order: one that reported that status of the stage's program, or one that found no child ended, the third stage running, an executable stopit and signals that had come |
| `Pid1.NoSignalNoShutdown` | pid1/runit.c:293-378 | without a signal no stage is shut down |
| `Pid1.ShutDownIff` | pid1/runit.c:293-378 | a wake-up shuts the third stage down if and only if no child has ended, stopit may be executed, and a CONT has come, or an INT with ctrlaltdel executable; signals that come to another stage, or without stopit, are forgotten |
| `Pid1.StoppingSends` | pid1/runit.c:331-374 | a shutdown sends 15, and 9 if and only if the end is not among the answers before the fifth that there is none |
| `Pid1.EndedSends` | pid1/runit.c:240-272 | for the statuses a kernel reports, only a third stage that exits 111 has its group killed with 9 |
| `Pid1.Init.Turn` | pid1/runit.c:202-385 | one wake-up ends the stage exactly when its program ended or, in the third stage with no child ended, a signal and an executable stopit (or ctrlaltdel) ask for it, and sends just the signals that go with that; in the two middle stages the early service runner is alive and known before and after |
| `Pid1.Init.Signals` | pid1/runit.c:293-385 | with no child ended, pending signals shut the third stage down or are forgotten |
| `Pid1.Init.Enter` | pid1/runit.c:147-198 | a stage is entered with its program started and, in the middle stages, exactly one early service runner |
| `Pid1.Init.Stop` | pid1/runit.c:331-374 | TERM to the stage's process, and KILL exactly if its end is not reported before five empty answers; other ends are collected meanwhile |
| `Pid1.Init.Ended` | pid1/runit.c:240-272 | the literal tests on the status decide which stage follows; KILL goes to the process group of a third stage that is repeated, and nothing otherwise |
| `Pid1.Init.StartEarlySvcRunner` | pid1/runit.c:56-85 | a runner is started only when there is none, with a pid of its own |
| `Decimals.ReadsBack` | libbyte/scan_ulong.c:5-17 | for every number below 2^64 and anything behind it that is not a digit, the scan covers exactly the numeral and gives the number back |
| `Decimals.NumberOfDecimal` | libbyte/fmt_ulong.c:5-27 | the numeral denotes the number |
| `Decimals.DecimalOfNumber` | libbyte/fmt_ulong.c:5-27 | every string of digits without a superfluous zero is the numeral of what it denotes |
| `Decimals.FmtUlong` | libbyte/fmt_ulong.c:5-27 | the length is that of the numeral, which is written from the back with nothing around it touched |
| `Decimals.FmtUint0` | libbyte/fmt_uint0.c:5-16 | the larger of n and the numeral's length; the characters denote the number |
| `Decimals.ScanUlong` | libbyte/scan_ulong.c:5-17 | the position is the number of leading digits, the result their number modulo 2^64 |
| `Allocs.Arena.Alloc` | libunix/alloc.c:19-32 | blocks of the arena are aligned and overlap none given before; a block holds the bytes asked for if and only if rounding the size did not overflow |
| `Allocs.Arena.Free` | libunix/alloc.c:34-41 | no non-empty block of the arena is handed to free |

## Left out

Whole parts of the repository:

* svlogd: more than one log directory per process, the processor, UDP, reopening on SIGHUP, deletion
  when the disk is full, copies of lines to standard error, the stamps of -tt and -ttt (they rest on
  gmtime), and the parsing of `config` except for the rules and what they are stored as.
* svlogd: the renaming of a `current` left by a crash at the start of logdir_open; the model starts
  from the directory as logdir_open leaves it.
* runsv: the text files of supervise/, the arguments of ./run and ./finish, the waiting in iopause, sleeps.
  Control scripts are only the answer whether they took a command over; the state STARTING exists only
  while one of them runs and is not modelled.
* runsv: what a service with ./oneshot keeps over a run, beyond the invariant of all runs (`RunsvSpec.EveryRun`)
  and its rest once it is done (`RunsvLaws.StaysDown`).
* runsvdir: its log argument, its own exit, the time-warp test; the comparison of the directory's
  modification time is an argument, and a pass in which stat or chdir on the directory fails is none.
* sv: everything but reading the status record and answering `check` from it.
* process 1: console, self-pipe, the final reboot. A fork that fails is tried until it succeeds.
* chpst, svc.restartd, utmpset, svwait*, telinit, runsvchdir, fghack, error tables, shell scripts:
  they would add only easy members.
* Floating point and waiting: taia_approx, taia_frac, iopause.

In the members above:

- LogDirs.LogDir.RmOldest: the directory is listed completely and unlink succeeds; the code warns and goes on otherwise.
- LogDirs.LogDir.PWrite: the callback of the buffer is fixed to svlogd's; the error returns that allwrite has for other callbacks never happen with it and are not modelled.
- LogDirs.LogDir.MakeRoom: the size counter is unbounded; with sizemax 0 it never matters, otherwise it is at most sizemax from the first write on.
- Match.PMatch: should the scan leave the memory that holds the rules (a plus at the end of the last pattern, and a NUL in the line), its answer is arbitrary.
- Match.LogMatch: rules hold no NUL; a line of `config` with one in it would be stored as more than one rule.
- Svlogd.Logger.Run: when the waits given are used up, an interrupted read is retried as often as the outside world likes; a read that fails, or is never repeated, counts as being asked to exit.
- Svlogd.Logger.GetC: the input buffer is a value here, as its callback does all the work between two lines; InBuffers has it in place, with the same step: the first of what was coming is given.
- Runsvdir.Watcher.Visit: errno is set by what fails in readdir and fork only; writing a warning does not fail, and a call that succeeds leaves errno alone.
- Runsv.SvDir.UpdateStatus: the writing and renaming of the status file succeed; the code warns otherwise.
- Runsv.Supervisor.LoopPass: at most one command letter per control pipe and pass, as in the code, and SIGTERM as the letter `x`.
- Status.Check: a supervisor that does not run, and a status file that is not 20 bytes long, are decided before the part modelled.
- Strallocs.Stralloc.Ready: sizes whose eighth more does not fit 32 bits are excluded.
- Environs.Environ.Env: as for Stralloc.Ready, the sizes do not overflow.
- Environs.Environ.Run: the size of the pointer array does not overflow; the strings are values, so that the array points into the noted chunks is not modelled.
- InBuffers.InBuffer.OneRead: a read is interrupted finitely often.
- Subgetopt.Cursor.Drive: option strings have no '?' for an option, as in all of runit; a program could not tell it from a problem.
- Decimals.ScanUlong: the position is unbounded; the text is shorter than 2^32 in the source's use.
- Allocs.Arena.Free: pointers are flat, as the source assumes.
- Pid1.Init.Run: the run is as long as its events, so that a wait that never ends is a run whose events are over.
- Pid1.Init.Stop: the wait after SIGKILL ends.
- Pid1.Init.WaitNoHang: a report that the early service runner ended, when there is none any more, is taken for one about another child.
