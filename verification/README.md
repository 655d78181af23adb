# Verified models of brk01, chdir01, asyncio02 and s2e_range

Four pieces of the repository decide their behaviour with loops and arithmetic
of their own. This Dafny project models them and proves what they do on every
run.

- **brk01** walks the process break. `setup()` fixes a ceiling from the data
  limit, the memory size and the CPU count; `main()` fixes a step; its loop then
  grows by two steps on even iterations, shrinks by one on odd ones, stands still
  at iteration 3, and goes back to the first break when it would pass the ceiling.
  `brk_setup.dfy` has the ceiling and the step, `brk_walk.dfy` the walk,
  `brk_results.dfy` what is reported and what a log establishes,
  `brk_promise.dfy` the theorems that join setup, step and walk, and
  `brk_program.dfy` the program as a class.
- **chdir01** checks a directory with one counter (`checknames.dfy`).
- **asyncio02** decides from a file's size whether all its writes were complete,
  for many chunk sizes (`asyncio_kernel.dfy`, `asyncio.dfy`, `asyncio_verdict.dfy`,
  `asyncio_program.dfy`).
- **s2e_range** confines a symbolic value to an interval (`s2e_range.dfy`).

`arithmetic.dfy` holds facts about quotients and remainders and the conversion
to a 32-bit `int`.

## How the models are set up

*The walk.* Every break reached is a whole number of steps from the first one, so
the walk is studied on that number (`Index`), and `BreakIsIndex` carries the
results back to bytes. `Top` is the number of whole steps below the ceiling. A
run is a sequence of booleans telling which brk(2) calls succeeded. The class
`BrkTest` accepts arbitrary kernel answers: a return value and the break that
sbrk(0) shows afterwards. Only `Honest` and the lemmas that require it assume
that a successful call moves the break where it was asked to and that a failed
one leaves it alone.

*Preconditions.* `4 * brk` in `setup()` and the sum each iteration forms do not
overflow a `long`, the step can be doubled in an `int` (`DoubleFits`), the first
break is not negative, and the iteration count `lc` is unbounded where the source
has an `int`. Where a result is an exact condition, `DoubleFits` is part of what is
characterised or a stated requirement, and `SumsFitIff` gives the exact condition
for the sums of a run without failures. The conversion of the step from `long` to
`int` is modelled, not assumed away: `Step` is what `main()` stores, `StoredPlan` and
`ProgramPlan` walk with it, and it can be zero or negative. `StepKept`, a 500th of
the distance is at most half of INT_MAX, says when the step keeps its value and can
be doubled. A plan is `Rising` when its step is positive; the closed form
`ClosedBreak` covers every sign.

*Form.* Long C functions are split along their own loops and blocks:
`CappedShare` and `Setup` are setup(), `Iterate` and `Run` main() of brk01,
`MatchEntry` the inner loop of checknames, `WriteAll` the write loop of testrun,
and `Attempt`, `RunChunks`, `RunFlag` and `RunSweep` the body of main() in
asyncio02. Locals that outlive one part are fields.

*tst_brkm* does not return: a method that reaches it returns `false`, or names
the call that failed. The kernel's answers, the data limit, the CPU count and the
number of iterations are parameters. In asyncio02 the answers are given per
event, an event being one call of `testrun` or the report that closes a chunk
loop. `BUFSIZ`, `DECR` and `WRITES` are parameters, and so are the open flags.

## What turned out false, and what is true instead

- The promise that the maximum is reached before iteration 1000: the step can be
  doubled in an `int` and the promise holds exactly when a 500th of the distance is at
  most half of INT_MAX (`BrkPromise.MaxSizePromiseIff`), and a log of 1000 iterations
  without failures proves it exactly then (`BrkPromise.CleanLogReachesCeilingIff`).
- "Every MAX_SIZE_LC'th lc" reaches it: never. Where the step can be doubled, the
  cycle is 1002 or at most 502 iterations when the step keeps its value, at least
  4002 when it is narrowed but positive (`BrkPromise.CycleOfProgram`), and there is
  none when it is not positive (`BrkPromise.DescentNeverRestarts`).
- "Allow 2*ncpus copies" and "only fourth mem by single test": each holds exactly
  when four times the current break allows it (`BrkSetup.BudgetKeptIff`).
- brk01 can ask for a negative break without any failure: it never does exactly
  when the stored step is between zero and the first break
  (`BrkPromise.RequestsNonNegativeIff`). With the default memory size, every limit and
  every CPU count leave the program free of negative requests and of overflow in the
  step and the sums exactly when the first break is at least 4185 bytes, 4095 with
  4-byte longs, the step stored for three times that break can be doubled and is not
  negative, and the largest sum fits (`BrkPromise.ProgramSafeIff`).
  `BrkPromise.NarrowedStepAsksBelowZero` is a first break where only the sign fails,
  `BrkSetup.DoublingCanOverflow` has two where only the doubling does.
- checknames can pass with a name missing. Its verdict is right for every list of
  names exactly on the streams without repeated entries
  (`DirectoryCheck.VerdictRightIff`).
- asyncio02's third TPASS is reported whatever its chunk calls returned
  (`AsyncIoVerdict.ThirdPassAlways`); `TST_TOTAL` counts the results exactly when
  no chunk call was incomplete (`AsyncIoVerdict.ResultsOfMain`).

## Model

| member | source | states |
|---|---|---|
| BrkSetup.BudgetKeptIff | tests/syscalls/brk/brk01.c:262-286 | the two budget promises of setup(), room for 2*ncpus copies and at most a quarter of memory, each hold if and only if four times the current break meets them; both hold when the override stays silent |
| BrkSetup.CeilingIff | tests/syscalls/brk/brk01.c:262-286 | a number is the ceiling if and only if it is at least four times the current break, is just that or meets both caps, and no amount that meets both caps is larger |
| BrkSetup.BudgetCanBeExceeded | tests/syscalls/brk/brk01.c:279-284 | a concrete break for which the override breaks both promises |
| BrkSetup.QuarterCapBitesIff | tests/syscalls/brk/brk01.c:267-275 | the quarter cap changes the result only with one CPU, and then exactly when the smaller of limit and memory exceeds twice the quarter by 2 or more |
| BrkSetup.CeilingFitsLong | tests/syscalls/brk/brk01.c:283-286 | the ceiling is at least the first break and survives the assignment from unsigned long to long |
| BrkSetup.StepKeptIff | tests/syscalls/brk/brk01.c:131-148 | the step can be stored and doubled in an int and is the computed one if and only if a 500th of the distance is at most half of INT_MAX |
| BrkSetup.StepIff | tests/syscalls/brk/brk01.c:131-148 | a number is the stored step if and only if it agrees with a 500th of the distance in its low 32 bits and is at least 2048, or exceeds it there by 2048 and is below 4096 |
| BrkSetup.StepBounds | tests/syscalls/brk/brk01.c:131-148 | where doubling the 500th does not overflow, the stored step can be doubled too, is at most the larger of a 500th of the distance and 4095, at least 2048 when the 500th is kept, and negative or zero exactly for the given low 32 bits of the 500th |
| BrkSetup.StepsBelowCeiling | tests/syscalls/brk/brk01.c:131-148 | a positive stored step that can be doubled fits exactly 500 times, with d % 500 bytes left over, from 1024000 bytes upwards and at most 250 times below when the 500th is kept, and at least 2000 times when it is not |
| BrkSetup.DoublingCanOverflow | tests/syscalls/brk/brk01.c:131-167 | two concrete 64-bit first breaks whose stored step is positive, for one of them exact, and overflows an int when doubled |
| BrkSetup.StepWithinStartIff | tests/syscalls/brk/brk01.c:131-286 | for the default memory size, under every limit and CPU count the step can be doubled and is between zero and the first break, if and only if that break reaches the threshold and the step stored for three times it can be doubled and is not negative |
| BrkWalk.BreakIsIndex | tests/syscalls/brk/brk01.c:150-195 | the walk in bytes is the walk in whole steps, on any mix of successes and failures |
| BrkWalk.WalkWithFailures | tests/syscalls/brk/brk01.c:150-195 | with any calls failing the break stays at most at the ceiling, a whole number of steps from the start, and at most one step plus one per failed grow below it |
| BrkWalk.FloorIsReached | tests/syscalls/brk/brk01.c:163-195 | that lower bound is attained for every number of failed grows |
| BrkWalk.BreakIsBalance | tests/syscalls/brk/brk01.c:150-195 | conservation, for any history of failures and any sign of the step: the break is the first one plus two steps per grow and minus one per shrink that succeeded since the last start-over |
| BrkWalk.NextStartOver | tests/syscalls/brk/brk01.c:160-177 | progress: after any history, once calls succeed the next start-over comes at one computed iteration, at most top pairs plus one per failed grow later, and none before it |
| BrkWalk.ExactCycle | tests/syscalls/brk/brk01.c:160-177 | two start-overs are exactly 2*top + 2 iterations apart with none in between, and the index first equals top two iterations before the second |
| BrkWalk.Recovery | tests/syscalls/brk/brk01.c:160-177 | after any history of failures, a successful stretch of any length starts over exactly at the computed iterations and at no others |
| BrkWalk.ClosedStep | tests/syscalls/brk/brk01.c:160-177 | the non-recursive closed form follows the grow, shrink, stand-still and start-over rules at every iteration |
| BrkWalk.ClosedForm | tests/syscalls/brk/brk01.c:150-177 | the index after n successful iterations, for every n, as an irregular start of four iterations and a remainder modulo top + 1 |
| BrkWalk.StartOverSchedule | tests/syscalls/brk/brk01.c:163-170 | every start-over of a run without failures, and no others |
| BrkWalk.FirstPass | tests/syscalls/brk/brk01.c:160-177 | until its first start-over, whose iteration is given, the walk gains one step per pair, and the special case at iteration 3 adds exactly one more for good |
| BrkWalk.FirstPeakIsFirst | tests/syscalls/brk/brk01.c:117-177 | the exact number of iterations after which the walk first stands top steps above its start, small tops included |
| BrkWalk.DescendingStep | tests/syscalls/brk/brk01.c:160-177 | with a step of zero or less no grow passes the ceiling, and the non-recursive index follows the loop's rules at every iteration |
| BrkWalk.BreakIsClosed | tests/syscalls/brk/brk01.c:150-187 | the break after n successful iterations in closed form, for every n and every sign of the step |
| BrkProgram.BrkTest.CappedShare | tests/syscalls/brk/brk01.c:267-275 | the largest amount that fits 2*ncpus times into limit and memory and once into a quarter of memory |
| BrkProgram.BrkTest.Setup | tests/syscalls/brk/brk01.c:223-290 | sets the first break and the ceiling, which is at least four times that break, is just that or meets both caps, and is not below any amount that meets both; changes nothing when getrlimit or sysconf fails |
| BrkProgram.BrkTest.ChooseStep | tests/syscalls/brk/brk01.c:131-148 | the step agrees with a 500th of the distance in its low 32 bits, or exceeds it there by 2048 when too small, and can be doubled; when a 500th is at most half of INT_MAX, it is between 2048 and the larger of the 500th and 4095 and fits 500 times from 1024000 bytes upwards, fewer than 251 times below; otherwise 2000 of it fit; it is not positive exactly for the given low 32 bits |
| BrkProgram.BrkTest.Iterate | tests/syscalls/brk/brk01.c:150-216 | one turn of the loop, for any break found and any kernel answer: the value handed to brk(2) on even iterations, odd ones and iteration 3, the new break and the results so far |
| BrkProgram.BrkTest.Run | tests/syscalls/brk/brk01.c:127-221 | for any kernel answers and any number of iterations the program reports what the specification of its results says on the stored step; its log has no failure if and only if every call followed the closed form, and 1000 such iterations with functional testing on prove that the break came within one step of the ceiling when a 500th of the distance is at most half of INT_MAX |
| BrkResults.HonestRunWalks | tests/syscalls/brk/brk01.c:160-195 | with an honest kernel the break seen is that of the walk |
| BrkResults.NeverWrongSize | tests/syscalls/brk/brk01.c:190-214 | an honest kernel is never reported for a wrong size |
| BrkResults.HonestReports | tests/syscalls/brk/brk01.c:190-214 | with an honest kernel no failure is reported if and only if no call failed |
| BrkResults.LogEntries | tests/syscalls/brk/brk01.c:190-214 | with functional testing on there is one result per iteration, in order; each carries the value handed to brk(2), what it returned and the breaks seen before and after, and is a failed call, a verified size or a wrong size exactly as the kernel's answer says |
| BrkResults.LogWithoutTesting | tests/syscalls/brk/brk01.c:190-214 | with functional testing off the log is the same one kept to its failed calls |
| BrkResults.CleanLogContents | tests/syscalls/brk/brk01.c:150-214 | a log without failures, with functional testing on, is exactly the closed form of every iteration, verified, with what each call returned |
| BrkResults.CleanLogIff | tests/syscalls/brk/brk01.c:150-216 | for any kernel and any sign of the step, no failure is reported if and only if every call succeeded and, with functional testing on, left the break at the closed form |
| BrkPromise.RangeWithoutFailures | tests/syscalls/brk/brk01.c:150-187 | without failures and with a positive step the break is in [Beg, Max] after even iterations and in [Beg - incr, Max] after odd ones |
| BrkPromise.SumsFitIff | tests/syscalls/brk/brk01.c:160-177 | with a positive step every sum of a run without failures fits a long if and only if Beg plus top + 2 steps, for tops 0, 1 and 3, or plus top + 1 steps otherwise, does |
| BrkPromise.RequestsNonNegativeIff | tests/syscalls/brk/brk01.c:160-187 | for a step of any sign, without failures every value handed to brk(2) is nonnegative, over an unbounded number of iterations, if and only if the step is between zero and the first break |
| BrkPromise.DescentNegativeIff | tests/syscalls/brk/brk01.c:160-187 | with a negative step a run without failures has asked for a negative break by the even iteration `last` if and only if last / 2 + 3 steps pass below zero |
| BrkPromise.RequestsWithFailuresIff | tests/syscalls/brk/brk01.c:150-195 | over all runs with at most f failed grows every value handed to brk(2) is nonnegative if and only if the step is not negative and 1 + f steps fit below the first break |
| BrkPromise.ProgramSafeIff | tests/syscalls/brk/brk01.c:131-286 | with the default memory size, under every limit and CPU count, doubling the step overflows no int, no sum of a run without failures overflows a long and no request is negative, if and only if the first break is at least 4185 bytes, 4095 with 4-byte longs, the step stored for three times that break can be doubled and is not negative, and the largest sum under the overriding ceiling fits; four times the first break fits a long throughout |
| BrkPromise.NarrowedStepAsksBelowZero | tests/syscalls/brk/brk01.c:131-187 | a concrete 64-bit first break whose stored step can be doubled and is negative, and an iteration that asks for a negative break |
| BrkPromise.FirstReach | tests/syscalls/brk/brk01.c:150-177 | with a positive step a run without failures first comes within one step of the ceiling after exactly FirstPeak iterations |
| BrkPromise.MaxSizeReached | tests/syscalls/brk/brk01.c:117-177 | when a 500th of the distance is at most half of INT_MAX, that takes at most 995 iterations |
| BrkPromise.MaxSizePromiseIff | tests/syscalls/brk/brk01.c:117-177 | the step can be doubled in an int and a run without failures comes within one step of the ceiling before iteration MAX_SIZE_LC, if and only if a 500th of the distance is at most half of INT_MAX |
| BrkPromise.NarrowedStepLosesPromise | tests/syscalls/brk/brk01.c:131-148 | a concrete first break whose narrowed positive step keeps the break away from the ceiling for the first 1000 iterations |
| BrkPromise.GapAtPeak | tests/syscalls/brk/brk01.c:131-177 | when a 500th is at most half of INT_MAX and the distance is 1024000 bytes or more, the peak comes after 995 iterations, d % 500 bytes below the ceiling |
| BrkPromise.CycleOfProgram | tests/syscalls/brk/brk01.c:131-177 | for every positive stored step that can be doubled, after any history: the next start-over comes one cycle later, none lies between, and the break comes within one step of the ceiling; the cycle is 1002, at most 502, or at least 4002 iterations, as the distance decides |
| BrkPromise.DescentNeverRestarts | tests/syscalls/brk/brk01.c:160-177 | with a step of zero or less a run without failures never starts over |
| BrkPromise.CleanLogReachesCeilingIff | tests/syscalls/brk/brk01.c:117-216 | the step can be doubled in an int and, for any kernel, 1000 iterations without failures and with functional testing on prove that the break came within one step of the ceiling, if and only if a 500th of the distance is at most half of INT_MAX |
| DirectoryCheck.MatchEntry | tests/syscalls/chdir/chdir01.c:165-174 | the inner loop adds how often the entry occurs in the list and reports that many found lines |
| DirectoryCheck.CheckNames | tests/syscalls/chdir/chdir01.c:158-180 | drains the stream; `found` is the sum over list slots of the slot's occurrences in the stream, the failure branch is taken exactly when it is below the list's length, and one found line is reported per match, in order |
| DirectoryCheck.DoubleCounting | tests/syscalls/chdir/chdir01.c:163-175 | counting matches entry by entry and counting them slot by slot give the same number, for any stream and list |
| DirectoryCheck.LinesFollowStream | tests/syscalls/chdir/chdir01.c:164-175 | each entry gives one found line per listed slot of its name, and the lines of a stream are those of its parts, in order |
| DirectoryCheck.OrderIrrelevant | tests/syscalls/chdir/chdir01.c:164-175 | the order of the entries does not change the count |
| DirectoryCheck.FailsIff | tests/syscalls/chdir/chdir01.c:163-179 | for any stream and list the check fails if and only if the missing slots outnumber the surplus occurrences |
| DirectoryCheck.FailureIsReal | tests/syscalls/chdir/chdir01.c:176-179 | a failure means that some listed name is absent, whatever repeats |
| DirectoryCheck.VerdictOnDirectories | tests/syscalls/chdir/chdir01.c:163-179 | without repeated entries the check fails if and only if some listed name is absent, even if the list repeats names |
| DirectoryCheck.VerdictRightIff | tests/syscalls/chdir/chdir01.c:163-179 | for any stream, the verdict is right for every list of names if and only if no entry repeats |
| DirectoryCheck.RepeatsCanHideAbsence | tests/syscalls/chdir/chdir01.c:163-179 | a concrete stream with a repeated entry that passes with a name absent |
| AsyncIoProgram.AsyncTest.WriteAll | tests/syscalls/asyncio/asyncio02.c:235-241 | goes through if and only if no write failed, and then the file has grown to the bytes written |
| AsyncIoProgram.AsyncTest.TestRun | tests/syscalls/asyncio/asyncio02.c:216-275 | returns what the size check makes of the final size, or names the call that ended the program; a call that returns has removed the file and closed its descriptor, and no other file or descriptor ever changes |
| AsyncIoProgram.AsyncTest.Attempt | tests/syscalls/asyncio/asyncio02.c:170-203 | one use of testrun by main() on an absent name: the matching result is reported, and the files and descriptors are as before |
| AsyncIoProgram.AsyncTest.RunChunks | tests/syscalls/asyncio/asyncio02.c:196-204 | the chunk loop makes exactly the listed calls in order and leaves files and descriptors as they were |
| AsyncIoProgram.AsyncTest.RunFlag | tests/syscalls/asyncio/asyncio02.c:164-210 | the three phases for one open flag, in order, each finding its file absent and leaving it absent |
| AsyncIoProgram.AsyncTest.Run | tests/syscalls/asyncio/asyncio02.c:142-214 | the whole program reports what the specification of its results says; if no call ends it early, files and descriptors are as at the start and its log has no failure if and only if functional testing is off or every write of every call was full; otherwise it stops at the first event that ends it |
| AsyncIo.SumIsFullIff | tests/syscalls/asyncio/asyncio02.c:235-263 | the bytes written never exceed bytes times writes, and equal that product if and only if every write was full |
| AsyncIo.OutcomeNamesFirstFailure | tests/syscalls/asyncio/asyncio02.c:227-273 | testrun returns if and only if every call it made succeeded, and otherwise the outcome names the first one that failed |
| AsyncIo.ReturnedValue | tests/syscalls/asyncio/asyncio02.c:251-273 | what testrun returns: OK with functional testing off; otherwise OK for the expected size and else the low 32 bits of the final size; on an absent or truncated file OK when every write was full and else the bytes written |
| AsyncIo.SizeCheckIff | tests/syscalls/asyncio/asyncio02.c:251-266 | for a file of any size after open, the check passes if and only if it already had the expected size, or was shorter and every write was full, or was longer by a size one short of a multiple of 2^32 |
| AsyncIo.SizeCheckMeansComplete | tests/syscalls/asyncio/asyncio02.c:251-266 | on an absent or truncated file the size check gives OK if and only if every write was full, and otherwise the actual size, which is never OK |
| AsyncIo.SizeCollidesIff | tests/syscalls/asyncio/asyncio02.c:263-265 | an unexpected size is mistaken for OK if and only if it is one short of a multiple of 2^32 |
| AsyncIoVerdict.ChunkCalls | tests/syscalls/asyncio/asyncio02.c:198-204 | the chunk loop makes exactly first / DECR + 1 calls, call j with first - j*DECR bytes, never negative |
| AsyncIoVerdict.ChunkSizesDiffer | tests/syscalls/asyncio/asyncio02.c:198-204 | later calls of one chunk loop use strictly smaller sizes |
| AsyncIoVerdict.RunWithinBuffer | tests/syscalls/asyncio/asyncio02.c:160-297 | no call of a run writes more bytes at a time than the buffer that setup() allocates |
| AsyncIoVerdict.CleanRunIff | tests/syscalls/asyncio/asyncio02.c:160-275 | over any list of events none of which ends the program, no failure is reported if and only if functional testing is off or every write of every call was full |
| AsyncIoVerdict.ResultsOfEvent | tests/syscalls/asyncio/asyncio02.c:170-208 | what each call adds to the results, told from its writes: the first two phases their own pass or failure, a chunk call only an incomplete file with its size and the expected one, the end of a chunk loop the third pass; nothing with functional testing off |
| AsyncIoVerdict.CleanMainIff | tests/syscalls/asyncio/asyncio02.c:160-211 | the same for main() itself, with functional testing on or off, for any create and truncate flags, BUFSIZ, DECR, WRITES and number of iterations |
| AsyncIoVerdict.ResultsOfMain | tests/syscalls/asyncio/asyncio02.c:152-211 | with functional testing on each iteration reports three results per open flag plus one per incomplete chunk call, so TST_TOTAL is exact if and only if no chunk call was incomplete; with it off nothing is reported |
| AsyncIoVerdict.ThirdPassAlways | tests/syscalls/asyncio/asyncio02.c:197-208 | with functional testing on the third TPASS is reported once per chunk loop, whatever the calls in it returned; with it off, never |
| S2eRange.RangeIsExact | guest_program/s2e.h:544-569 | the values returned on surviving paths are exactly those in [start, end), none for an empty range, and start + 1 overflows on no path that passes the first test |
| S2eRange.EveryPath | guest_program/s2e.h:544-569 | every path: status 1 for an empty range, the single value whatever the symbolic one would be, and otherwise each value inside on its own path and status 0 on the others |
| S2eRange.UnsignedTestAgreesIff | guest_program/s2e.h:556-565 | the single unsigned comparison agrees with the two signed ones on every bit pattern if and only if the upper bound is not negative |

## Left out

- The rest of the repository: the other guest programs and tests are straight-line system call sequences whose behaviour lies in a kernel that is not shown.
- Option parsing, signal handling, TEST_PAUSE, cleanup() and the text of messages; TEST_LOOPING is any number of iterations.
- The CRAY way of asking for the memory size; the memory size is a parameter of the ceiling.
- Breaks moved by library calls between two iterations; the class sees the break only where the source calls sbrk(0) after brk(2).
- The system calls of asyncio02 beyond names, sizes, offsets and descriptors; `AsyncIoKernel` is the assumption made about them.
- What an ended run of asyncio02 leaves behind: tst_brkm leaves the program, and only that other files and descriptors are untouched is stated.
- Open flags other than O_CREAT and O_TRUNC: access mode, O_APPEND and O_EXCL are not modelled, and every open file is written from offset 0.
- Data bytes: writes are counted, their contents are not modelled.
- chdir01's main: after checknames it leaves everything to chdir(2) and to the symbolic engine.
- The names found by readdir are compared as whole strings; the loop inside strcmp is not part of this model.
- The instruction bytes of s2e.h: s2e_make_symbolic is the choice of a 32-bit value and s2e_kill_state the end of the path.
- s2e_get_module_info of s2e.h, a first-match scan of /proc/self/maps, and the __s2e_touch functions, which only read memory.
- errno values and the timing done by the TEST macro.
