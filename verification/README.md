# Kernel structures of a System V Release 4 system

A model, in Dafny, of the parts of an SVR4 kernel for the 386 that keep several descriptions of one thing in step, and proofs
that they do. Each part has a module of pure functions that says what the operations mean, a class with the
kernel's own fields whose methods do what the C code does and are proved to mean that, and lemmas about all inputs, all
reachable states or all runs.

| files | subject |
|---|---|
| Common, Arith, Bitmap, SchedState, Dispatcher | dispatch queues as linked lists, summarised by counts, a bitmap, a total and maxrunpri |
| TimeSharing, RealTime, Quanta | the time-sharing and real-time classes, and the flags that decide whether a process may run |
| SchedRuns, Turns, TsStarvation | the scheduler as a state machine with the system class, where every call puts a process and who runs next, and freedom from starvation |
| DoubleLong, HrTime | 64-bit arithmetic on pairs of words, conversion of times between resolutions, real-time quanta |
| Rings, TimerList, TimerRuns | doubly linked rings, the delta list of the high-resolution timers, timers over whole runs and their deadlines |
| NameCache | the directory name cache: one set of slots on an LRU ring and on hash chains |
| Pathname, Lookup, PathLaws, PathChains, Vnode | pathname buffers, lookuppn with its reference counts, laws of resolution, and the calls built on it |
| Poll | the sleep and wakeup protocol of poll(2), and its lists |
| DmaIo | raw I/O through bounce pages |
| Clist | character lists |
| LineEdit | canonical line editing on message blocks, and what each keystroke does |
| Emap | input character mapping and the table of shared maps |

`dafny verify dfyconfig.toml` checks everything.

Linked structures are index arrays: an address is the number of a process, timer, slot, polldat or block, and a field of the
structure is a sequence indexed by that number. Ghost fields hold the lists the links stand for. Interrupt levels become
atomic steps. Allocation succeeds unless a routine's own failure path is modelled.

## Where the code does less than it promises

- hrt_convert, and so hrt_tohz, misses totals of 2^31 up to 2^32: they come out negative, without EDOM
  (`HrTime.ConvertMeetsPromiseIff`, `HrTime.ConvertWrapsExample`).
- The remaining times reported for cancelled timers count merged time twice
  (`TimerSpec.ReportExactIff` says exactly when they are right, `TimerSpec.WrongReportExample` when not).
- A ts_maxwait of 0x7fff, which TS_SETDPTBL accepts, means never: the counter wraps (`TsStarvation.NobodyLeftIff`).
- A fork is meant to let the child run first; a parent at a kernel priority goes to the front of the queue when it gives way, and
  runs again (`Turns.ChildFirst` says exactly when, `Turns.ParentFirstExample`).
- When traverse fails after its first mount, lookuppn releases the wrong vnode (`PathLaws.StrayIff`, `PathLaws.StrayExample`).
- Slashes at the end of a path are dropped even after a name that is no directory, where section 4.13 of POSIX.1-2017 asks for an
  error (`PathLaws.Trailing413Iff`, `PathLaws.SlashAfterFileExample`).
- The move-forward step of dnlc_lookup can change later answers under ANYCRED (`CacheSpec.ForwardAnswers`); no caller of
  dnlc_lookup asks under it (they pass NOCRED, or nfs_lookup's credentials). dnlc_enter keeps the old vnode of a name it finds
  (`CacheSpec.EnterAnswers`), and a negative purge count purges one entry.
- An element of poll's array that is to be ignored can be registered on the list of another file
  (`PollSpec.IgnoredRegistersIff`, `PollSpec.IgnoredExample`).
- dma_buf_breakup looks at B_ERROR alone and reports success for a request that fell short without it
  (`DmaIo.RawIo.DmaBufBreakup`, `DmaIo.WriteIsDirectIff`, `DmaIo.ShortWriteExample`).
- putcb takes an empty block, which makes getc answer with a byte that is no character of the list
  (`CharLists.EmptyBlockMisleads`).
- emchkmap accepts tables in which the search for the last dead key runs past the table
  (`EmapSpec.StaysInsideIff`, `EmapSpec.StraysExample`).
- TS_QUOT can outlive its backslash (`LineSpec.QuoteHonestIff`, `LineSpec.StaleQuoteExample`); the line limit is one more than
  MAX_CANON (`LineSpec.RunBounded`).

## Model

| member | source | states |
|---|---|---|
| Bitmap.Set | i386/sys/bitmap.h:59-60 | BT_SET turns on exactly the bit asked for: every other bit of the map reads as before |
| Bitmap.Clear | i386/sys/bitmap.h:61-62 | clearing a bit of the map turns off exactly that one |
| Bitmap.GetHighBit | i386/os/bitmap.c:77-188 | the word-by-word binary search finds the highest bit on in the given word or below it, and -1 if and only if there is none |
| Bitmap.HighBitOfWord | i386/os/bitmap.c:92-186 | the five shift steps inside one nonzero word end on its top bit |
| Dispatcher.Dispatch.constructor | i386/disp/disp.c:75-113 | an empty dispatcher satisfies the representation invariant: no queue, no bit, total 0, maxrunpri -1 |
| Dispatcher.Dispatch.DqSrunInc | i386/disp/disp.c:584-596 | one more loaded process at a priority: its count rises by one and bitmap, total and maxrunpri agree with the counts again |
| Dispatcher.Dispatch.DqSrunDec | i386/disp/disp.c:603-618 | one less: the same, maxrunpri becoming the next highest bit, or -1 when the total is 0 |
| Dispatcher.Dispatch.SetBackDq | i386/disp/disp.c:385-434 | the links, counts, bitmap, total and maxrunpri stand for the old queues with the process last on the queue of its priority |
| Dispatcher.Dispatch.LinkLast | i386/disp/disp.c:410-421 | every list stays well formed with the process behind the last of its queue |
| Dispatcher.Dispatch.SetFrontDq | i386/disp/disp.c:440-488 | ... with the process first on the queue of its priority |
| Dispatcher.Dispatch.LinkFirst | i386/disp/disp.c:465-474 | ... or before the first |
| Dispatcher.Dispatch.DispDeq | i386/disp/disp.c:494-570 | ... without the process; the answer says whether it was queued, and if not nothing changes |
| Dispatcher.Dispatch.FindOnQueue | i386/disp/disp.c:505-530 | the search ends on the process with its predecessor, or on NULL exactly when it is not on the queue |
| Dispatcher.Dispatch.Unlink | i386/disp/disp.c:533-554 | unlinking the process at any place of a queue leaves every queue a well-formed list whose dq_last is its end |
| SchedState.DeqUndoes | i386/disp/disp.c:385-570 | dispdeq undoes setbackdq and setfrontdq, and leaves a process that is not queued alone |
| Dispatcher.Dispatch.Store | i386/disp/ts.c:385-406 | a store to a process keeps the summaries right as long as, if it is queued, it keeps its priority and schedulability |
| Dispatcher.Dispatch.StoreFlags | i386/fs/proc/prsubr.c:292-305 | a change of SLOAD, SPROCIO or SSYS on a queued process, with the matching count call, keeps the counts, bitmap, total and maxrunpri right |
| Dispatcher.Dispatch.MaxRunPriIsHighest | i386/disp/disp.c:584-618 | maxrunpri is always the highest queue on which something may run, -1 when nothing may |
| Dispatcher.Dispatch.SkipToSchedulable | i386/disp/disp.c:275-282 | the skip loop of pswtch never runs off the list and stops at the first process that may run |
| Dispatcher.Dispatch.TakeNext | i386/disp/disp.c:274-312 | the process taken is the one the queues name, and the links and summaries stand for the queues without it |
| Dispatcher.Dispatch.DispatchNext | i386/disp/disp.c:273-321 | ... and it becomes current, with its priority, the preemption flags cleared |
| Dispatcher.NextToRun | i386/disp/disp.c:273-282 | what is dispatched is queued, may run, and has priority maxrunpri |
| Dispatcher.FirstSchedulableAt | i386/disp/disp.c:275-282 | the first schedulable process of a queue is the one no schedulable process precedes |
| TsSpec.NewUmdPri | i386/disp/ts.c:60-66 | the user-mode priority always lies inside the table, and nothing else of the record changes |
| TimeSharing.MoveToUserPri | i386/disp/ts.c:691-730 | dequeue, give the new priority, requeue: a queued process ends at the back of its new queue with a fresh quantum, another is marked TSBACKQ; no other process moves |
| TimeSharing.Tick | i386/disp/ts.c:922-946 | ts_tick on the linked queues is the pure rule whose laws follow, including the tick between CL_PREEMPT and pswtch that finds the process queued |
| Quanta.TsQuantumLasts | i386/disp/ts.c:922-946 | a user-mode process keeps its priority for exactly the ticks left of its quantum; the last one takes it to the level of ts_tqexp, clears its wait, asks for preemption and touches no other process |
| TimeSharing.Update | i386/disp/ts.c:983-1017 | the loop of ts_update over the list is the pure rule applied to its members one after the other |
| TimeSharing.UpdateOne | i386/disp/ts.c:992-1012 | one member: its wait grows, or, past ts_maxwait, it is moved as in ts_tick, to the level of ts_lwait |
| TsSpec.UpdateOneReady | i386/disp/ts.c:983-1017 | updating any process leaves every time-sharing process with cpupri and umdpri inside the table and upri at most uprilim |
| TimeSharing.Preempt | i386/disp/ts.c:741-769 | ts_preempt: back of the queue with a fresh quantum when TSBACKQ is on (quantum kept after a fork or in kernel mode), front otherwise; the flags that are used up are cleared |
| TimeSharing.SetRun | i386/disp/ts.c:793-802 | ts_setrun: the process is last on its queue, with a fresh quantum unless it holds a kernel priority |
| TimeSharing.Wakeup | i386/disp/ts.c:1032-1038 | ts_wakeup: last on its queue, its quantum as it was |
| TimeSharing.Sleep | i386/disp/ts.c:812-819 | ts_sleep: the kernel priority taken is the one ts_kmdpris has for the sleep argument, counted from its end |
| TimeSharing.TrapRet | i386/disp/ts.c:959-973 | ts_trapret: a kernel priority is given up for the level of ts_slpret, and preemption asked for when something better is queued and no wakeup is pending |
| TimeSharing.Assign | i386/disp/ts.c:385-406 | the part ts_enterclass and ts_parmsset share, for the current process, a queued one and any other |
| TimeSharing.EnterClass | i386/disp/ts.c:288-406 | ts_enterclass: refused to an ordinary user asking for a positive limit; otherwise the process heads ts_plisthead with the initial record and the priority that names |
| TsSpec.Initial | i386/disp/ts.c:317-366 | the record a process enters the class with is inside its ranges and in user mode, whatever was asked for |
| TimeSharing.ParmsSet | i386/disp/ts.c:644-732 | ts_parmsset: refused exactly to an ordinary user raising his limit; otherwise limit, priority (never above the limit) and queue change |
| TimeSharing.Fork | i386/disp/ts.c:440-504 | ts_fork and ts_forkret: the child is a runnable copy at the back of its queue, the parent is marked to follow it |
| TimeSharing.SetTable | i386/disp/ts.c:200-254 | TS_SETDPTBL is accepted if and only if the caller is privileged, the size fits and every entry has a positive quantum, nonnegative wait and levels inside the table; ts_globpri is kept |
| TsSpec.AcceptedTableOk | i386/disp/ts.c:221-269 | an accepted table leaves every level at its global priority and is again one the class can use, if and only if its waits fit a short |
| TsStarvation.UpdateListAges | i386/disp/ts.c:983-1017 | one call of ts_update ages each listed waiting process exactly once, whatever the order of the list, and others not at all |
| TsStarvation.AgeSpendsBudget | i386/disp/ts.c:992-1012 | every such ageing step strictly spends a bounded budget while the process is below the top level |
| TsStarvation.NoStarvation | i386/disp/ts.c:983-1017 | if each level below the top is raised by ts_lwait and no ts_maxwait exceeds w, a process that every call finds waiting in user mode is at the top ts_cpupri within ts_maxumdpri * (w + 1) calls, for every sequence of states the calls find |
| TsStarvation.NeverRaised | i386/disp/ts.c:996-1001 | the bound on w is needed: with ts_maxwait 0x7fff the 16-bit counter wraps and the process is never raised |
| TsStarvation.NobodyLeftIff | i386/disp/ts.c:996-1009 | for every table whose levels below the top lead further up, with more than one: a process that waits long enough is at the top within a number of calls that depends on the number of levels alone, whatever its record, if and only if no ts_maxwait is 0x7fff; otherwise there is a record for which no number will do |
| RealTime.Preempt | i386/disp/rt.c:705-722 | rt_preempt: back of the queue with a fresh quantum when RTBACKQ is on, front otherwise |
| RealTime.SetRun | i386/disp/rt.c:746-756 | rt_setrun and rt_wakeup: last on its queue with a full quantum, preemption asked for exactly when it beats the current priority |
| RealTime.Tick | i386/disp/rt.c:860-868 | rt_tick: an infinite quantum is not counted; the tick that uses a finite one up asks for preemption |
| Quanta.RtQuantumLasts | i386/disp/rt.c:860-868 | a real-time process never changes priority by running; it is asked to give way at the last tick of its quantum, no sooner, and never when the quantum is infinite |
| RealTime.SetLevel | i386/disp/rt.c:664-686 | the priority half of rt_parmsset, for the current process, a queued one and any other |
| RealTime.ParmsSet | i386/disp/rt.c:639-696 | rt_parmsset: refused exactly to an ordinary requester that is not real-time; otherwise level and quantum change and the queues follow |
| RealTime.EnterClass | i386/disp/rt.c:303-367 | rt_enterclass once SLOAD is on: the process heads rt_plisthead and has its initial record; the priority is the new level's, a queued process goes to the back of that queue |
| RealTime.SetPriority | i386/disp/rt.c:340-364 | ... its priority step |
| RealTime.MoveToLevel | i386/disp/rt.c:354-364 | dequeue, give a level's priority, requeue at the back, and ask for preemption when that beats the current priority |
| RunFlags.MarkLoaded | i386/disp/rt.c:274-291 | turning on SLOAD for an unloaded process, with dq_sruninc when it is runnable and not held by /proc, keeps every count |
| RunFlags.MarkLoadedKeepsCountsIff | i386/disp/rt.c:274-291 | the test before dq_sruninc leaves out SSYS: it would go wrong for an unloaded, runnable system process outside /proc I/O and for no other; RunsFromBoot says that there is none |
| RunFlags.MarkUnloaded | i386/os/sched.c:152-158 | unloading the nominee of sched() keeps every count |
| RunFlags.ProcIoBegin | i386/fs/proc/prsubr.c:253-262 | taking hold of a process for /proc I/O takes it out of the counts when it was in them |
| RunFlags.ProcIoEnd | i386/fs/proc/prsubr.c:292-305 | letting go of it puts it back, asking for preemption when it beats the current priority |
| SchedRuns.Pswtch | i386/disp/disp.c:202-321 | pswtch, a pass of its idle loop included, on the linked queues is the step of the state machine |
| SchedRuns.StepKeepsInv | i386/disp/disp.c:253-618 | twenty-one kinds of step (ticks, ts_update, preemption, switching, sleeping, waking, stopping, exits, slots freed, parameter changes, class changes, forks, flag changes, a new table) all keep the invariant: a process is queued exactly when it is runnable or on its way out, on one queue, that of its priority, which is the one its class record names; records stay inside their ranges; ts_plisthead lists the time-sharing processes once each, and rt_plisthead the real-time ones |
| SchedRuns.RunKeepsInv | i386/disp/disp.c:253-618 | the invariant holds in every state of every run |
| SchedRuns.BootInv | i386/os/startup.c:948-956 | the state startup leaves, process 0 on the processor and every slot free, satisfies the invariant |
| SchedRuns.Start | i386/os/startup.c:948-956 | a dispatcher fresh from dispinit with process 0 in it is in that state |
| SchedRuns.RunsFromBoot | i386/os/sched.c:152-158 | in every state of every run from there the invariant holds and a process with SSYS has SLOAD; while a process runs, the flag changes of RunFlags find every process as they need it |
| SchedRuns.ExitGood | i386/os/exit.c:344-357 | exit keeps the invariant: the zombie is off every queue and off the list of its class |
| SchedRuns.ReapGood | i386/os/exit.c:566-599 | freeing a zombie's slot, which fork may use again, keeps the invariant |
| SchedRuns.SwtchPicksBest | i386/disp/disp.c:253-321 | in every such state pswtch runs a process of maximum priority among all queued ones that may run, the first such on its queue, and idles if and only if there is none |
| SchedRuns.PreemptGood | i386/disp/sysclass.c:145-181 | the preemption half of a switch keeps the invariant for all three classes, sys_preempt included |
| SchedRuns.SleepGood | i386/disp/sysclass.c:162-172 | going to sleep keeps it for all three classes, sys_sleep giving the sleep priority |
| SchedRuns.WakeupGood | i386/disp/sysclass.c:176-181 | waking a sleeper keeps it for all three classes |
| SchedRuns.SetRunGood | i386/disp/sysclass.c:153-157 | so does making a stopped or sleeping process runnable |
| Turns.GivesPlace | i386/disp/ts.c:741-769 | giving way, in all three classes, puts the process last on the queue of its priority if TSBACKQ (but not at a kernel priority after a fork) or RTBACKQ is on and first otherwise, every other process keeping its order; a time-sharing quantum is renewed exactly in user mode and not after a fork; which marks are used up |
| Turns.GiveWay | i386/disp/disp.c:202-321 | who runs after that: the same process if and only if it may run and no other that may has a higher priority, nor, if it went to the back, the same; otherwise the best of the others |
| Turns.SwtchLeaves | i386/disp/disp.c:253-321 | pswtch takes the process it picks off its queue, leaves the others in order and drops all requests for preemption; with nobody to pick it leaves both alone |
| Turns.WakesPlace | i386/os/slp.c:266-339 | a process woken joins the end of the queue of the priority it slept at, its marks off; who asks for preemption, in user mode and in the kernel |
| Turns.RunnablePlace | i386/os/slp.c:364-445 | so does one made runnable, with a fresh quantum unless it is at a kernel priority |
| Turns.SleepsOff | i386/os/slp.c:85-190 | a process going to sleep is on no queue; which priority it takes in each class |
| Turns.UmdPriIsSum | i386/disp/ts.c:60-66 | the user-mode priority is the sum of its two components wherever that lies in the table, and the end it passes otherwise |
| Turns.MovesUser | i386/disp/ts.c:396-404 | a move to another level puts a queued process at the end of its new queue with a fresh quantum and marks any other to go there; all others keep their order |
| Turns.MovesLevel | i386/disp/rt.c:354-364 | the same in the real-time class, and when preemption is asked for |
| Turns.QuantumOver | i386/disp/ts.c:922-946 | the last tick of a quantum sends the process to the level that the ts_tqexp of its old one and its upri make, and asks for preemption once |
| Turns.WaitsTooLong | i386/disp/ts.c:992-1012 | one share of ts_update: past ts_maxwait the process is sent to the level of ts_lwait, otherwise it has waited once more |
| Turns.UpdateAsks | i386/disp/ts.c:983-1017 | ts_update asks for preemption once, however many processes it moves |
| Turns.BackToUser | i386/disp/ts.c:959-973 | ts_trapret leads to the level of ts_slpret with a fresh quantum, and asks for preemption if and only if a process that may run is better and no wakeup without preemption is pending |
| Turns.GivenPriority | i386/disp/ts.c:385-406 | a process given class data: the current one keeps the processor unasked if and only if it is now better than every other that may run, a queued one goes to the end of its queue and asks when better than the current |
| Turns.GivenLevel | i386/disp/rt.c:664-686 | the same for a real-time level, on entering the class and by rt_parmsset |
| Turns.ParmsTake | i386/disp/ts.c:656-732 | the limit and user priority ts_parmsset installs, the second never above the first, and the level they make; at a kernel priority only the record changes |
| Turns.NiceOrder | i386/disp/ts.c:696-705 | higher user priorities have lower nice values, from 39 through 20 to 0 |
| Turns.StartsMiddle | i386/disp/ts.c:317-366 | a process enters the class in user mode at the middle level moved by its user priority; asking for no change of both values is the same as giving none |
| Turns.EntersTs | i386/disp/ts.c:365-406 | entering the class: head of ts_plisthead, off the other list, and the priority of the starting values |
| Turns.StartsLevel | i386/disp/rt.c:303-326 | the level and quantum a process enters the real-time class with |
| Turns.EntersRt | i386/disp/rt.c:330-367 | entering it: head of rt_plisthead, off the other list, and the priority of its level |
| Turns.QuantumSet | i386/disp/rt.c:688-694 | the quantum rt_parmsset leaves: infinite, the level's own, the one asked for, or the old one |
| Turns.RtParmsTake | i386/disp/rt.c:664-694 | rt_parmsset as a whole: the level first, then a quantum that is that of the new level where the level's own is asked for |
| Turns.ForksPlace | i386/disp/ts.c:440-504 | the child joins the end of its parent's queue as a loaded copy of it with a full quantum, in all three classes; a time-sharing parent is marked and preemption asked for |
| Turns.ChildFirst | i386/disp/ts.c:486-504 | when the parent then gives way it stands behind its child and does not run before it, as the comment promises, if and only if it is not at a kernel priority or cannot go on anyway |
| Turns.ParentFirstExample | i386/disp/ts.c:486-504 | a parent at a kernel priority forks, gives way, and runs again with its child on the queue |
| Turns.FlagsMoveNobody | i386/fs/proc/prsubr.c:253-305 | a change of SLOAD, SPROCIO or SSYS moves no process; preemption is asked for only when /proc lets go of a runnable, loaded process that is better than the current one |
| Turns.LifeOf | i386/os/slp.c:85-445 | every step changes state and flags of the one process it is about and of no other, and what it makes of them depends on nothing but the step |
| DoubleLong.Ladd | i386/io/ladd.s:15-30 | the sum modulo 2^64 |
| DoubleLong.Lsub | i386/io/lsub.s:15-33 | the difference modulo 2^64 |
| DoubleLong.Shl1 | i386/io/lshiftl.s:15-56 | one left step doubles modulo 2^64 and leaves an even number |
| DoubleLong.Sar1 | i386/io/lshiftl.s:15-56 | one right step of a nonnegative number halves it |
| DoubleLong.ShiftLeftFits | i386/io/lshiftl.s:15-56 | shifting left n times multiplies by 2^n whenever the result is below 2^63 |
| DoubleLong.Lmul | i386/io/lmul.c:28-34 | the 64-step loop computes the product, for every pair whose product is below 2^63 |
| DoubleLong.Ldivide | i386/io/ldivide.c:28-48 | the 63-step restoring division computes the floor quotient of the magnitudes |
| DoubleLong.DivideStep | i386/io/ldivide.c:35-46 | each step keeps dividend brought down = quotient * divisor + remainder, remainder < divisor |
| HrTime.HrTimeT.NewRes | i386/io/hrtimers.c:2024-2180 | for a nonnegative time at a legal resolution the remainder becomes exactly rem * new_res / old_res rounded down, half up or up, whole seconds being carried first; the only error is an illegal new resolution, and then nothing changes |
| HrTime.SinglePrecision | i386/io/hrtimers.c:2057-2129 | the 32-bit path is taken if and only if the product fits (the divide-back test is exact), its result is exact, and neither of its ERANGE exits is reachable |
| HrTime.RoundQuotient | i386/io/hrtimers.c:2075-2140 | ... its division and rounding, exact in all three modes |
| HrTime.DoublePrecision | i386/io/hrtimers.c:2131-2179 | the slow path is exact too and its final ERANGE is unreachable |
| HrTime.DivideBackTest | i386/io/hrtimers.c:2064-2066 | a product taken modulo 2^32 divides back to the multiplicand if and only if it did not overflow |
| HrTime.AddThenDivide | i386/io/hrtimers.c:2144-2163 | adding half the divisor, or one less than it, before dividing is rounding half up, or up |
| HrTime.HrTimeT.Convert | i386/io/hrtimers.c:2188-2203 | hrt_convert: what its two overflow tests let through |
| HrTime.HrTimeT.ToHz | i386/io/hrtimers.c:1960-1976 | hrt_tohz: the time as ticks, rounded as asked, with EDOM exactly when hrt_convert answers -1 |
| HrTime.ConvertMeetsPromiseIff | i386/io/hrtimers.c:2188-2203 | the ticks, or EDOM when a long cannot hold them, are reported if and only if the total is below 2^31, or the whole seconds overflow 32 bits, or the total is 2^32 - 1 |
| HrTime.ConvertWrapsExample | i386/io/hrtimers.c:2188-2203 | a total of 2^31 ticks comes out as a negative count without an error |
| HrTime.ParmsOut | i386/disp/rt.c:592-627 | rt_parmsout: ticks to seconds and nanoseconds, truncated, the special quanta passed through |
| HrTime.ParmsIn | i386/disp/rt.c:518-556 | rt_parmsin: seconds and nanoseconds to ticks, rounded up; which values are refused and with what error |
| HrTime.QuantumRoundTrip | i386/disp/rt.c:538-624 | rt_parmsout followed by rt_parmsin gives back every positive quantum at every clock rate up to 10^9 |
| HrTime.QuantumCovers | i386/disp/rt.c:538-546 | the quantum stored is the least number of ticks that is not shorter than the time asked for |
| HrTime.QuantumRefusedIff | i386/disp/rt.c:534-556 | the times refused as invalid are exactly none, a billion nanoseconds or more, and negative ones without a meaning |
| HrTime.SpecialRoundTrip | i386/disp/rt.c:538-624 | ... and the special quanta |
| TimerSpec.ScheduleSorted | i386/io/hrtimers.c:2301-2360 | the running sums of a delta list are nondecreasing: the list is in firing order |
| TimerSpec.InsertKeepsDues | i386/io/hrtimers.c:1234-1241 | linking a timer in with what is left of its time, taken off its successor, gives it the time asked for and leaves every other firing time alone |
| TimerSpec.DeleteKeepsDues | i386/io/hrtimers.c:1197-1203 | taking a timer out and adding its time to its successor leaves every other firing time alone |
| TimerList.TimerQueue.constructor | i386/io/hrtimers.c:2211-2227 | after hrtinit every timer is on the free list, in order, and nothing is pending |
| TimerList.TimerQueue.Alloc | i386/io/hrtimers.c:2253-2272 | a timer is taken off the front of the free list, or there is none; nothing pending changes |
| TimerList.TimerQueue.Free | i386/io/hrtimers.c:2278-2295 | a timer in hand goes to the front of the free list; nothing pending changes |
| TimerList.TimerQueue.Enqueue | i386/io/hrtimers.c:2302-2314 | the links of both lists stay right with the timer in front of the given one |
| TimerList.TimerQueue.Dequeue | i386/io/hrtimers.c:2351-2360 | ... and without it |
| TimerList.TimerQueue.Timeout | i386/io/hrtimers.c:1214-1243 | the deadlines pending are the old ones with the new one behind everything due no later than it; with a base it is the base plus the time asked for, as long as that is not past |
| TimerList.TimerQueue.Place | i386/io/hrtimers.c:1234-1243 | the walk past the entries due no later, and the insertion |
| TimerList.AdjustedOnDeadline | i386/io/hrtimers.c:1227-1233 | with a base the deadline is absolute: while fewer ticks than asked for have passed since the base the timer is due when the clock shows base + time modulo 2^32; otherwise at the next tick |
| TimerList.LateBy | i386/io/hrtimers.c:1227-1233 | a timer put on the list n ticks late is due n ticks sooner, or at the next tick |
| TimerList.TimerQueue.Withdraw | i386/io/hrtimers.c:1197-1203 | taking an entry off the list keeps every other deadline |
| TimerList.TimerQueue.CancelEntry | i386/io/hrtimers.c:1357-1383 | a cancelled entry is freed and every other deadline kept |
| TimerList.TimerQueue.CancelTid | i386/io/hrtimers.c:1357-1383 | exactly the entries of that process and id go, the others keep their deadlines and order, the count is how many went, and what time each is reported with |
| TimerList.TimerQueue.CancelMatch | i386/io/hrtimers.c:1372-1380 | one entry of the scan that matches: reported with the running total, taken off and freed |
| TimerSpec.KeptIs | i386/io/hrtimers.c:1357-1383 | what a cancellation leaves are the entries of other processes and of other event ids, in order |
| TimerSpec.ReportExactIff | i386/io/hrtimers.c:1372-1378 | all cancelled entries are reported with the times they would have fired at, in 32 bits, if and only if each of them, the last one aside, was due together with the surviving entry before it; otherwise time already merged is counted again |
| TimerSpec.ExcessZeroIff | i386/io/hrtimers.c:1372-1378 | the running total of the scan is right after all entries if and only if every cancelled one was due so, the last one too |
| TimerSpec.WrongReportExample | i386/io/hrtimers.c:1372-1378 | two timers with 5 and 9 ticks left, both cancelled, are reported with 5 and 14 |
| TimerList.TimerQueue.FireHead | i386/io/hrtimers.c:171-195 | one firing: a one-shot timer is freed, a repeating one goes back behind everything due no later than its next interval |
| TimerList.TimerQueue.FireAll | i386/io/hrtimers.c:171-197 | the inner loop fires every timer due at this tick, in order, and no other, and ends |
| TimerList.TimerQueue.ClockInt | i386/io/hrtimers.c:157-199 | the timer part of clock_int: exactly the entries due at this tick fire, in order; the others come one tick closer; repeating ones are put back; the inner loop ends although they are re-inserted |
| TimerSpec.DueCountIsAll | i386/io/hrtimers.c:157-199 | the entries that fire are all those due at the tick |
| TimerSpec.InsertBehindDue | i386/io/hrtimers.c:183-197 | a repeating timer put back while others of the same tick are still to fire goes behind them |
| TimerSpec.FreedIs | i386/io/hrtimers.c:183-195 | the timers a tick frees are the one-shot ones among those that fired, the last first |
| TimerSpec.HeadCountdown | i386/io/hrtimers.c:163-164 | counting the head of the list down counts every deadline down |
| TimerRuns.RunKeepsOrder | i386/io/hrtimers.c:157-1243 | in every run of ticks, insertions and removals the list stays in firing order, nothing overdue, no timer twice |
| TimerRuns.FiredIff | i386/io/hrtimers.c:157-199 | of such a list exactly the timers with one tick left fire |
| TimerRuns.CountsDown | i386/io/hrtimers.c:157-1243 | until its time has come a timer is on the list with the ticks that have passed taken off |
| TimerRuns.FiresOnTime | i386/io/hrtimers.c:157-1243 | a timer put on the list for d ticks fires at exactly the d-th tick, in every run in which it is not cancelled, whatever happens to the others |
| Deadlines.FiresAtDeadline | i386/io/hrtimers.c:157-1243 | a timer asked for at some tick for d ticks fires d ticks after that, however late it is put on the list before that, in every run in which it is not cancelled |
| TimerRuns.InsertPlace | i386/io/hrtimers.c:1234-1243 | a new entry goes behind all entries due no later and in front of all others |
| TimerRuns.FiredAgain | i386/io/hrtimers.c:171-195 | a timer that fired is on the list for its next interval if it repeats, and on no place of it if not |
| TimerRuns.RepeatsOnTime | i386/io/hrtimers.c:157-1243 | a repeating timer put on the list for d ticks fires for the (f+1)-th time at exactly tick d + f * hrt_int + floor(f * hrt_rem / tick), in every run in which it is not cancelled |
| TimerList.ScheduleOrderly | i386/io/hrtimers.c:157-199 | the linked list stands for such a list whenever nothing on it is overdue |
| TimerList.TimerQueue.Unsleep | i386/io/hrtimers.c:1167-1208 | the first pending sleep of the process is ended and freed, the others keep their deadlines, and the answer is its remaining time, 0 when there is none |
| TimerList.FirstSleepIs | i386/io/hrtimers.c:1167-1208 | the entry hrt_unsleep ends is a sleep of that process, and none before it is |
| TimerSpec.NoDrift | i386/io/hrtimers.c:183-191 | repeating timers do not drift: from no carry, n intervals take exactly n * hrt_int + floor(n * hrt_rem / tick) ticks |
| TimerSpec.TotalAndCarry | i386/io/hrtimers.c:183-191 | ... and from any carry, time and carry together are conserved |
| NameCache.DirNameCache.constructor | i386/fs/dnlc.c:132-158 | after dnlc_init every slot is free and on the LRU ring; without memory or slots caching is off |
| NameCache.DirNameCache.Search | i386/fs/dnlc.c:436-457 | the chain search finds the first match on the chain and misses only if no entry of the whole cache matches |
| NameCache.DirNameCache.Enter | i386/fs/dnlc.c:163-226 | the entries in last-use order become those of the bounded LRU map; names too long are ignored; the LRU ring, all hash chains and the counted holds stay right |
| NameCache.DirNameCache.TakeSlot | i386/fs/dnlc.c:185-225 | the slot reused is a free one while there is one and otherwise the least recently used entry's, whose holds are given back |
| NameCache.DirNameCache.ExchangeHolds | i386/fs/dnlc.c:201-219 | the holds of the entry evicted are given back and those of the new one taken: the cache holds what its entries name |
| CacheSpec.EnterAnswers | i386/fs/dnlc.c:163-226 | entering changes what is found for the new name and for the one evicted when all slots are taken, and nothing else; entering a name already there changes nothing, even for another vnode; no key appears twice |
| NameCache.DirNameCache.Lookup | i386/fs/dnlc.c:231-269 | a hit answers the entry's vnode and makes it the last used, a miss changes nothing; under a given credential the answer is the map's |
| NameCache.DirNameCache.Refresh | i386/fs/dnlc.c:254-258 | a hit goes to the end of the LRU ring: the order of the entries is that of their last use |
| NameCache.DirNameCache.MoveUp | i386/fs/dnlc.c:259-267 | the hit moves one place forward on its chain, which keeps every chain right |
| CacheSpec.ForwardAnswers | i386/fs/dnlc.c:259-267 | that step changes the answer of a lookup if and only if the two exchanged are its first two matches and name different vnodes, which takes ANYCRED |
| CacheSpec.ForwardExample | i386/fs/dnlc.c:259-267 | one name cached for two credentials with two vnodes: a lookup under the second exchanges the answers under ANYCRED |
| CacheSpec.TouchAnswers | i386/fs/dnlc.c:253-258 | moving an entry to the end of the last-use order changes no answer |
| CacheSpec.RecentlyUsedSurvive | i386/fs/dnlc.c:163-269 | eviction is least recently used over whole runs: an entry outlives every run of enters and lookups using fewer different names than there are slots |
| NameCache.DirNameCache.Remove | i386/fs/dnlc.c:274-290 | all entries for the name in the directory go, under every credential, and no others; the restart loop ends |
| NameCache.DirNameCache.Purge | i386/fs/dnlc.c:295-314 | afterwards the cache is empty; the restarts end |
| NameCache.DirNameCache.PurgeVp | i386/fs/dnlc.c:319-339 | the entries whose directory or vnode it is are gone, all others are left in their order, and the vnode is held no more |
| NameCache.DirNameCache.PurgeVfsp | i386/fs/dnlc.c:347-374 | of the entries of the file system the least recently used min(count, all) go, all when count is 0, one when it is negative; the answer is how many |
| CacheSpec.PurgedCount | i386/fs/dnlc.c:274-398 | a purge of n takes min(n, matches) entries, all of them matches, and leaves every other entry; with n large enough none that matches is left |
| CacheSpec.PurgedVnode | i386/fs/dnlc.c:319-339 | purging a vnode leaves exactly the entries with neither directory nor vnode equal to it, in order, and no hold on it |
| CacheSpec.PurgedName | i386/fs/dnlc.c:274-290 | removing a name leaves exactly the entries of other directories or names, in order, under whatever credential |
| CacheSpec.PurgedVfs | i386/fs/dnlc.c:347-374 | purging a file system takes the least recent of the entries whose directory or vnode is of it and leaves the others in order |
| CacheSpec.HoldsCount | i386/fs/dnlc.c:201-214 | the cache holds a vnode once for each entry whose directory it is and once for each whose vnode it is |
| CacheSpec.CredsCount | i386/fs/dnlc.c:205-219 | and a credential once for each entry made under it |
| NameCache.DirNameCache.Purge1 | i386/fs/dnlc.c:382-398 | exactly the least recently used entry goes, if there is one |
| NameCache.DirNameCache.Scan | i386/fs/dnlc.c:319-398 | the ring scan finds an entry to purge if there is one |
| NameCache.DirNameCache.BusyChain | i386/fs/dnlc.c:304-313 | the scan of the chain heads finds an entry if there is one |
| NameCache.DirNameCache.Rm | i386/fs/dnlc.c:403-431 | the entry is gone, its holds on directory, vnode and credential are given back, and its slot becomes the first to be reused |
| NameCache.DirNameCache.InsLru | i386/fs/dnlc.c:486-497 | the LRU ring stays a ring, with the slot in its new place |
| NameCache.DirNameCache.RmLru | i386/fs/dnlc.c:503-508 | ... and without it |
| NameCache.DirNameCache.InsHash | i386/fs/dnlc.c:464-472 | every slot in use is on exactly the chain its hash names, the new one included |
| NameCache.DirNameCache.RmHash | i386/fs/dnlc.c:475-480 | the slot is off its chain and the others stay right; a free slot, linked to itself, is left alone |
| NameCache.DirNameCache.NullHash | i386/fs/dnlc.c:427-430 | a freed slot is linked to itself again |
| CacheSpec.NcHash | i386/fs/dnlc.c:62-65 | the hash names one of the eight chains |
| CacheSpec.Find | i386/fs/dnlc.c:436-457 | the first match in an order, and none before it |
| Pathname.Pn.Set | i386/fs/pathname.c:103-141 | pn_get and pn_set: the string up to its null, refused exactly when that leaves no room for one |
| Pathname.Pn.Fill | i386/fs/pathname.c:166-186 | pn_getsymlink: the link text as read, up to the whole buffer |
| Pathname.Pn.Insert | i386/fs/pathname.c:149-164 | the link's text in front of what remains, in one buffer and in place; refused, and nothing changed, exactly when it does not fit |
| Pathname.Pn.StripComponent | i386/fs/pathname.c:195-219 | everything before the first slash is the component and the rest is kept; refused exactly when it is as long as MAXNAMELEN |
| Pathname.Pn.SkipSlash | i386/fs/pathname.c:224-232 | all leading slashes and nothing else are dropped |
| Pathname.Pn.FixSlash | i386/fs/pathname.c:263-274 | all trailing slashes and nothing else are dropped; a path of slashes only is left with a length of zero or less |
| Pathname.Pn.SetLast | i386/fs/pathname.c:240-258 | what is left is the last name of the part of the buffer gone through |
| Pathname.Pn.BackOverSlashes | i386/fs/pathname.c:248-249 | the backward scan stops on the last character that is no slash, or the first of the buffer |
| Pathname.Pn.BackToSlash | i386/fs/pathname.c:251-252 | ... and on the last slash before it |
| PathText.PiecesJoin | i386/fs/pathname.c:195-274 | taking a path apart at runs of slashes undoes joining names with slashes |
| PathText.PiecesAreNames | i386/fs/pathname.c:195-219 | every piece is a nonempty name without slashes |
| PathText.PiecesApart | i386/fs/pathname.c:224-232 | how many slashes are between two parts of a path makes no difference to its pieces |
| PathText.PiecesFix | i386/fs/pathname.c:263-274 | neither do slashes at its end |
| PathText.FinalIsLast | i386/fs/pathname.c:240-258 | pn_setlast finds the last piece |
| PathWalk.Climb | i386/fs/lookup.c:184-198 | ".." climbs out of mounted roots as far as a directory that is no mounted root, and never past the process's root |
| PathWalk.Cross | i386/fs/lookup.c:318-351 | crossing mounts ends on a vnode with nothing mounted on it, or with an error, for every way mounts nest |
| PathLaws.HitIsEntry | i386/fs/lookup.c:184-231 | one component: what is found is what VOP_LOOKUP answers in the directory reached, across its mounts, or that directory itself for .. at the root; what is missed is its error there |
| PathLaws.WayOut | i386/fs/lookup.c:191-197 | from every directory there is a chain of mounted roots, each covering the next, none of them the process's root but perhaps the last, that ends at the root or at a directory that is no mounted root |
| PathLaws.DotDotIsOutside | i386/fs/lookup.c:184-205 | ".." from a directory is ".." looked up in the last directory of that chain, and that directory itself at the root |
| PathLaws.OneMountOut | i386/fs/lookup.c:191-197 | ".." from a mounted root is ".." from the directory it covers |
| PathLaws.DotDotFromMount | i386/fs/lookup.c:184-302 | ... and so is the lookup of the path ".." |
| PathLaws.DownAndUp | i386/fs/lookup.c:184-231 | ".." after crossing mounts is ".." from where the crossing began, when the mount table agrees with itself |
| PathChains.WayDown | i386/fs/lookup.c:318-351 | crossing goes from each mounted vnode to the root of what is mounted there, and ends at the first with no mount, or at the first whose lock is not had (EINTR) or that gives no root (its error) |
| PathWalk.Interpret | i386/fs/lookup.c:83-312 | the name interpretation ends for every path and file system (links left, then length, then mount depth) and hands back a parent exactly when asked for one |
| Lookup.Names.Traverse | i386/fs/lookup.c:318-351 | the hold moves from the vnode given to the one reached, also when it fails on the way |
| Lookup.Names.CheckForRoot | i386/fs/lookup.c:184-198 | the hold moves along with every step out of a mounted root |
| Lookup.Names.Component | i386/fs/lookup.c:184-231 | the goto-driven treatment of one component finds what its meaning says and holds what it finds |
| Lookup.Names.Splice | i386/fs/lookup.c:246-256 | the link's text (or "." for an empty one) in front of what remains; ENAMETOOLONG exactly when it does not fit; the second buffer is freed on every exit |
| Lookup.Names.Link | i386/fs/lookup.c:239-260 | following a link: ELOOP after 20, the right directory kept, holds given back on every error |
| Lookup.Names.Advance | i386/fs/lookup.c:239-302 | what follows a component found: a link, the end, or the next directory; the remaining path gets shorter |
| Lookup.Names.Deliver | i386/fs/lookup.c:267-287 | at the end parent and component go to whoever asked, EINVAL when they are the same directory and the parent was asked for |
| Lookup.Names.Degenerate | i386/fs/lookup.c:159-174 | a path without names stands for the directory itself, refused when its parent is asked for |
| Lookup.Names.Failure | i386/fs/lookup.c:206-231 | a failed lookup gives every hold back, but for the missing last component when the parent is wanted |
| Lookup.Names.LookupPn | i386/fs/lookup.c:83-312 | lookuppn computes the meaning of the path; on success exactly the vnodes handed back gained one hold each, on error none did (but for the case of StrayIff), no pathname buffer is lost, and the buffer holds the last name |
| PathLaws.StrayIff | i386/fs/lookup.c:226-231 | a lookup of one name releases a vnode once too often and keeps another if and only if traverse crosses its first mount and fails at a later one |
| PathLaws.NoStraysInterpret | i386/fs/lookup.c:83-312 | where no root of a mounted file system is mounted on, every lookup, failed or not, leaves all counts right |
| PathLaws.WalkIsListWalk | i386/fs/lookup.c:137-302 | the lookup depends on the list of names of the path alone, except that a link's text may fail to fit; without links not even that |
| PathLaws.InterpretIsListWalk | i386/fs/lookup.c:83-302 | ... from the start of the path on: from the root exactly when it starts with a slash |
| PathChains.FollowsChain | i386/fs/lookup.c:137-302 | without links a lookup finds the end of the chain of directories each name leads to from the one before, or fails with the error of the first name that leads nowhere |
| PathChains.PathsCompose | i386/fs/lookup.c:137-302 | the path a/b is b looked up from the directory a leads to, with links and mounts anywhere |
| PathChains.LinkStandsForText | i386/fs/lookup.c:239-260 | a link on the way stands for what its text leads to, from the directory it is in or from the root |
| PathChains.LastLink | i386/fs/lookup.c:239-260 | a link at the end stands for its text too if it is followed, and is found itself if not |
| PathChains.LoopFails | i386/fs/lookup.c:242-245 | a link that names itself is ELOOP: the lookup ends |
| PathLaws.SpellingsAgree | i386/fs/lookup.c:83-302 | two spellings with the same names find the same, or one does not fit |
| PathLaws.StrayExample | i386/fs/lookup.c:226-231 | a lookup of a mount point whose mounted root is mounted on by a dead file system releases the one and keeps the other |
| PathLaws.TrailingSlashesDropped | i386/fs/lookup.c:132-135 | one more slash at the end of a path that is not empty never matters, even after a name that is no directory |
| PathLaws.Trailing413Iff | i386/fs/lookup.c:132-135 | for every path that is not empty and every lookup not asking for the parent: the outcome with a slash added is the one section 4.13 of POSIX.1-2017 asks for if and only if the path cannot be looked up or is found on a directory |
| PathLaws.UnfollowedLinkMisses413 | i386/fs/lookup.c:132-135 | so a link at the end that is not followed is found in spite of the slash, and never meets it |
| PathLaws.FollowSame | i386/fs/lookup.c:239-240 | following a link at the end matters only to a lookup that stops on one |
| PathLaws.SlashAfterFileExample | i386/fs/lookup.c:132-135 | f and f/ are both found on the vnode of a file f that is no directory |
| PathLaws.ParentHoldsEntry | i386/fs/lookup.c:83-312 | the parent handed back is the directory in which the name handed back was looked up: the component is its entry there across mounts, or is missing there, and is never the parent itself |
| PathLaws.RootIsTheTop | i386/fs/lookup.c:184-198 | however often ".." is repeated from the process's root, the root is what is found |
| Lookup.Names.PnAlloc | i386/fs/pathname.c:70-83 | a buffer from the free list or a new one: one more in use |
| Lookup.Names.PnFree | i386/fs/pathname.c:89-97 | one less in use |
| Vnode.LookupName | i386/fs/lookup.c:55-71 | lookupname: the meaning of the string, with the buffer freed on every exit |
| Vnode.PnGet | i386/fs/pathname.c:103-122 | a buffer with the string, or an error and no buffer |
| Vnode.VnOpen | i386/fs/vnode.c:142-252 | the answer, check by check, and one hold on the vnode answered, none otherwise |
| Vnode.OpenNode | i386/fs/vnode.c:231-252 | the opening protocol gives the hold back when VOP_OPEN or the truncation fails, and VOP_OPEN may change the vnode |
| Vnode.VnCreate | i386/fs/vnode.c:257-383 | the answer, check by check, and one hold on the vnode made, none otherwise |
| Vnode.MakeNode | i386/fs/vnode.c:307-383 | creation once the directory is found, all holds given back on every exit |
| Vnode.VnLink | i386/fs/vnode.c:388-438 | the answer, and every count as it was |
| Vnode.VnRename | i386/fs/vnode.c:443-507 | the answer, and every count as it was, with up to three vnodes and two buffers held at a time |
| Vnode.VnRemove | i386/fs/vnode.c:512-604 | the answer, and every count as it was, but for the mount's own hold when an unlinkable mount is undone first |
| Vnode.TryRemove | i386/fs/vnode.c:542-604 | removal once the entry is found, the covered vnode taking its place when it is such a mount |
| VnodeLaws.ClientsBalance | i386/fs/vnode.c:142-604 | with no mounts stacked none of the five ever leaves a hold or gives one back twice, whatever fails |
| VnodeLaws.NamedIs | i386/fs/lookup.c:55-118 | a path given to any of these calls is its list of names, from the root if it begins with a slash and from the current directory otherwise; one that cannot be copied in or does not fit is refused |
| VnodeLaws.OpensIff | i386/fs/vnode.c:189-252 | vn_open of an existing name hands out a vnode if and only if the name is found, what is written or truncated is no directory, not read-only and not locked, access is granted, and VOP_OPEN and the truncation succeed |
| VnodeLaws.OpenRefusals | i386/fs/vnode.c:200-229 | otherwise it answers with the first reason in the order EISDIR, EROFS, EAGAIN or the error of VOP_GETATTR, the error of VOP_ACCESS, the error of VOP_OPEN |
| VnodeLaws.CreatesThenOpens | i386/fs/vnode.c:161-236 | opening to create is vn_create and then VOP_OPEN, with no second truncation |
| VnodeLaws.CreatesIff | i386/fs/vnode.c:257-383 | vn_create succeeds if and only if the directory is found and writable, a vnode found there is not locked, and the file system makes the vnode: in the directory, or through the mounted root found |
| VnodeLaws.CreateUnfound | i386/fs/vnode.c:293-302 | a lookup that fails is answered with its error, but for EINVAL to mkdir, which is EEXIST |
| VnodeLaws.LinksIff | i386/fs/vnode.c:388-438 | a link is made if and only if both paths are found, on one file system, writable, and VOP_LINK succeeds; two file systems give EXDEV |
| VnodeLaws.RenamesIff | i386/fs/vnode.c:443-507 | a rename succeeds if and only if the entry exists, its directory, its vnode and the new directory are on one writable file system, and VOP_RENAME succeeds |
| VnodeLaws.RemovesIff | i386/fs/vnode.c:512-604 | a mount on the entry is undone if and only if it is unlinkable and the unmount succeeds; the entry goes if and only if it is there, not busy, on a writable file system, a directory for rmdir, and the file system removes it |
| PollSpec.StepKeepsInv | i386/fs/vncalls.c:2359-2773 | every action of every process and interrupt keeps: what a scan has gone past is not ready and would be noticed; polldats on lists belong to a call that is in progress, and go all together |
| PollSpec.ReachedKeepsInv | i386/fs/vncalls.c:2359-2773 | ... so it holds in every state of every interleaving |
| PollSpec.NeverAsleepOnReady | i386/fs/vncalls.c:2450-2579 | no lost wakeup: in no interleaving is a process asleep while a descriptor of its array, on a file with a pollhead, has anything ready it asked for, or an error or hangup |
| PollSpec.EventIsSeen | i386/fs/vncalls.c:2520-2566 | an event asked for wakes the sleeper; one that comes between the look at its descriptor and the sleep clears SINPOLL and makes the scan start over |
| PollSpec.WokenLooksAgain | i386/fs/vncalls.c:2590-2609 | in every run: a process woken before its time is up, or without a limit, goes back to scan all its descriptors with SINPOLL on; one whose time is up leaves |
| PollSpec.GivesUpIff | i386/fs/vncalls.c:2466-2613 | in every state a step ends a call that has found nothing if and only if it is a signal, a failing VOP_POLL, time up before the sleep (never without a limit), or the return from a sleep that polltime ended |
| PollSpec.OnlyPolltime | i386/fs/vncalls.c:2643-2661 | polltime alone ends a sleeper's time, and is never pending for a call without a limit |
| PollSpec.WhyNothing | i386/fs/vncalls.c:2466-2640 | in every run a call that answers 0, or an error, with nothing found has met one of those |
| PollSpec.CountRises | i386/fs/vncalls.c:2466-2482 | fdcnt rises, by one, exactly when the descriptor looked at is no open file or has something ready that was asked for, or an error or hangup |
| PollSpec.FileRegistersIff | i386/fs/vncalls.c:2470-2494 | an open file is registered, on its own pollhead with its events, if and only if nothing has been found yet and it has one |
| PollSpec.TimedSleepEnds | i386/fs/vncalls.c:2538-2661 | a sleep with a time limit always has polltime pending, and polltime ends both the sleep and the call |
| PollSpec.NoneLeftBehind | i386/fs/vncalls.c:2611-2632 | outside poll a process has no polldat on any list |
| PollSpec.CleanUpCleans | i386/fs/vncalls.c:2458-2463 | the polldel between two scans, and at the end, takes off everything of the process and nothing else, from one remembered pollhead |
| PollSpec.IgnoredRegistersIff | i386/fs/vncalls.c:2464-2494 | an ignored (negative) descriptor is put on the list of a file looked at before it if and only if nothing is ready yet and that look left a pollhead |
| PollSpec.IgnoredExample | i386/fs/vncalls.c:2464-2494 | a run of two elements, the second to be ignored, that sleeps with both registered on one file and is woken by an event only the ignored one names |
| PollLists.PollSystem.PollAdd | i386/fs/vncalls.c:2702-2724 | on the doubly linked lists: the polldat heads the list of its pollhead, ph_events sums up the list, nothing else changes |
| PollLists.PollSystem.PollDel | i386/fs/vncalls.c:2733-2773 | when the polldat is on that list all those of its call are off all lists, ph_events being recomputed; otherwise nothing happens |
| PollLists.PollSystem.Unlist | i386/fs/vncalls.c:2746-2765 | one polldat comes off whatever list it is on, or none |
| PollLists.PollSystem.Recalculate | i386/fs/vncalls.c:2757-2761 | ph_events is again exactly the union of what the list asks for |
| PollLists.PollSystem.FindOn | i386/fs/vncalls.c:2742-2743 | the search answers whether the polldat is on the list |
| PollLists.PollSystem.PollWakeup | i386/os/ddi.c:794-820 | exactly the processes that asked for the event (all, for an error or hangup) are run, once each, and are off all lists afterwards; the loop that starts over after each ends |
| PollLists.PollSystem.FirstMatch | i386/os/ddi.c:809-817 | with the event in ph_events the scan finds a polldat that asked for it |
| DmaSpec.DirectInTwo | i386/io/dmacheck.c:1171-1306 | a direct transfer is the transfer of a first part ending on a block boundary and of the rest |
| DmaSpec.DirectBytes | i386/io/dmacheck.c:1131-1341 | a direct transfer byte for byte, and that nothing else changes |
| DmaIo.RawIo.DmaableRawio | i386/io/dmacheck.c:1080-1344 | a transfer that succeeds is one direct transfer of the whole byte range, whichever pages are bounced; one that fails has written exactly its first bytes, or read them and changed nothing outside the buffer; the free pages are the same ones afterwards, and those that came back while it waited for enough |
| DmaIo.RawIo.Passes | i386/io/dmacheck.c:1171-1343 | the passes cover the range once, in order, each from the block its bytes are on, and end; free and held pages together stay the same |
| DmaIo.RawIo.Pass | i386/io/dmacheck.c:1176-1263 | one pass transfers its stretch as one direct transfer would |
| DmaIo.RawIo.MapPass | i386/io/dmacheck.c:1176-1200 | the window shows the pages of the stretch, or bounce pages with the same bytes when writing; it stops at the window's end or when bounce pages run out |
| DmaIo.RawIo.UnmapPass | i386/io/dmacheck.c:1217-1263 | after a read every bounced byte is in the page it belongs to, and the window is unmapped |
| DmaIo.RawIo.GiveBackSurplus | i386/io/dmacheck.c:1274-1291 | pages beyond what is left to transfer are freed, at least one is kept |
| DmaIo.RawIo.DmaBufBreakup | i386/io/dmacheck.c:852-989 | one request for each page through one bounce page, up to the first with an error; of each page exactly the first bytes its request moves have gone over, a write changes no other byte of the disk; a read leaves the rest of each page as it was when the page is in reach, and as the bounce page held it when not, and nothing else changes; success is reported if and only if no request has an error, also when one fell short; the bounce page is given back on every exit |
| DmaIo.RawIo.Request | i386/io/dmacheck.c:883-934 | one request: its first bytes go over and the bounce page holds what came last |
| DmaIo.WholeIsDirect | i386/io/dmacheck.c:883-975 | requests that each move their whole page come to one direct transfer |
| DmaIo.WriteIsDirectIff | i386/io/dmacheck.c:883-975 | a write without an error comes to the direct one if and only if the bytes it left out were on the disk already |
| DmaIo.ReadIsDirectIff | i386/io/dmacheck.c:883-975 | a read without an error comes to the direct one if and only if what it left at the bytes it did not move, in pages in reach or from the bounce page, is what the disk has there |
| DmaIo.ShortWriteExample | i386/io/dmacheck.c:938-972 | a request of 512 bytes that moves 511 without an error leaves the last byte of the disk as it was, and success is reported |
| DmaIo.Piece | i386/io/dmacheck.c:892-963 | the pieces requested, page by page, are those of the whole buffer |
| DmaIo.RawIo.Straight | i386/io/dmacheck.c:1112-1117 | a transfer the hardware can do is passed on whole |
| DmaIo.RawIo.DmaPages | i386/io/dmacheck.c:1352-1389 | the pages of the buffer and how many of them are out of reach |
| DmaIo.RawIo.PageGet | i386/io/dmacheck.c:1448-1493 | the first so many pages in the order they are free or come back, waiting for exactly as many as are short |
| DmaIo.RawIo.PageRele | i386/io/dmacheck.c:1496-1548 | they are free again |
| DmaIo.BounceApart | i386/io/dmacheck.c:1190-1199 | two pages out of reach never share a bounce page |
| DmaIo.ReachStep | i386/io/dmacheck.c:1178-1200 | page by page a pass gets to page boundaries, and at the last page to the end of the buffer |
| DmaIo.PagesLeft | i386/io/dmacheck.c:1274-1290 | what is left after a pass starts on a page and block boundary and has the pages left |
| DmaIo.NextBlock | i386/sys/sysmacros.h:34 | btod of a stretch that ends on a block boundary advances the block number to the block of the next byte |
| CharLists.CharSystem.Getc | i386/io/clist.c:29-54 | on the linked blocks: the first character and the list without it, a block used up going to the free list; -1 exactly when the list is empty; c_cc is the byte count |
| CharLists.CharSystem.Putc | i386/io/clist.c:56-82 | the character last, in a new block only when the last is full; -1, and nothing changed, when there is none |
| ClistSpec.GetIsFirst | i386/io/clist.c:29-54 | getc takes the first character of the byte queue, loses no block and leaves no empty one |
| ClistSpec.PutIsLast | i386/io/clist.c:56-82 | putc adds the last, fails if and only if there is neither room nor a block, loses no block |
| CharLists.CharSystem.Getcf | i386/io/clist.c:84-99 | a whole block from the free list for the caller |
| CharLists.CharSystem.Putcf | i386/io/clist.c:101-114 | a block in the caller's hand goes back |
| CharLists.CharSystem.Getcb | i386/io/clist.c:116-131 | the first block with its characters is the caller's, the rest stays |
| CharLists.CharSystem.Putcb | i386/io/clist.c:133-150 | any block in hand becomes the last one and its characters the last of the list; no queued block is empty afterwards if and only if it has characters |
| CharLists.EmptyBlockMisleads | i386/io/clist.c:29-57 | with an empty block in front, getc takes a byte of that block, not the list's first character |
| CharLists.CharSystem.Getcbp | i386/io/clist.c:181-215 | the block-wise loop answers and leaves what the specification of getcbp says |
| CharLists.CharSystem.Putcbp | i386/io/clist.c:217-259 | ... and of putcbp |
| ClistSpec.GetBlocksIsGetMany | i386/io/clist.c:181-215 | getcbp of n is n calls of getc: same characters, same queue, same free list |
| ClistSpec.PutBlocksIsPutMany | i386/io/clist.c:217-259 | putcbp is putc of each character: it stops at the same one and leaves the same queue and free list |
| ClistSpec.GetManyTakes | i386/io/clist.c:181-215 | so getcbp takes the first characters in order, as many as asked for or as there are, and loses no block |
| ClistSpec.PutManyAdds | i386/io/clist.c:217-259 | and putcbp adds them in order behind the others, all of them unless the last block is full and none is free |
| CharLists.OnePlace | i386/io/clist.c:29-259 | every block is in exactly one place: the free list, one clist or a caller's hand |
| LineEdit.LineDiscipline.constructor | i386/io/ldterm.c:2100-2119 | an empty message block is an empty line |
| LineEdit.LineDiscipline.Docanon | i386/io/ldterm.c:1071-1379 | the chain of blocks after a character is the flat editor's line after it; only the first block may be empty and t_msglen is the total |
| LineEdit.LineDiscipline.Escaped | i386/io/ldterm.c:1230-1355 | ... from the label escaped on, with the line limit |
| LineEdit.LineDiscipline.AddByte | i386/io/ldterm.c:1271-1291 | the character is last, in a new block exactly when the last is full |
| LineEdit.LineDiscipline.Unget | i386/io/ldterm.c:1381-1392 | the last character of the last block, -1 exactly when the line is empty |
| LineEdit.LineDiscipline.Trim | i386/io/ldterm.c:1394-1421 | a last block left empty goes unless it is the first |
| LineEdit.LineDiscipline.Erase | i386/io/ldterm.c:1643-1657 | the line without its last character |
| LineEdit.LineDiscipline.Werase | i386/io/ldterm.c:1662-1694 | the line without its trailing white space and the word before that, across blocks, the character put back into its block |
| LineEdit.LineDiscipline.Kill | i386/io/ldterm.c:1773-1819 | an empty line and both flags off |
| LineEdit.LineDiscipline.NewMsg | i386/io/ldterm.c:2100-2119 | there is a message to go on with and the line is what it was; a block is allocated exactly when there is none |
| LineEdit.LineDiscipline.MsgUpstream | i386/io/ldterm.c:2121-2151 | the line goes up the stream whole and an empty one begins |
| LineSpec.RunBounded | i386/io/ldterm.c:1239-1268 | no line, also none sent, is longer than MAX_CANON + 1 characters, over any input |
| LineSpec.PlainIsText | i386/io/ldterm.c:1070-1379 | characters without a special meaning are the line, in order |
| LineSpec.PlainLineSent | i386/io/ldterm.c:1070-1379 | ... and a newline sends them as typed |
| LineSpec.EraseTakesBack | i386/io/ldterm.c:1117-1135 | erase undoes a plain character |
| LineSpec.KillTakesBack | i386/io/ldterm.c:1149-1163 | kill undoes any number of them |
| LineSpec.BackslashErase | i386/io/ldterm.c:1117-1125 | backslash and erase give the erase character itself |
| LineSpec.LiteralNext | i386/io/ldterm.c:1085-1108 | after literal-next any character is text, a line end too |
| LineSpec.WordErased | i386/io/ldterm.c:1662-1694 | a word erase takes exactly one word and the white space behind it, and always something of a line that is not empty |
| LineLaws.EofSends | i386/io/ldterm.c:1203-1225 | end of file sends the line, an empty one too, without a character of its own |
| LineLaws.EndSends | i386/io/ldterm.c:1331-1347 | a character that ends lines is sent with the line |
| LineLaws.ErasersErase | i386/io/ldterm.c:1117-1172 | what erase, kill, word erase and reprint do to a line |
| LineLaws.ErasesEmpty | i386/io/ldterm.c:1117-1135 | k erases take the last k characters, or all |
| LineLaws.BackslashQuotes | i386/io/ldterm.c:1117-1190 | behind a backslash erase, kill and end of file are text in its place |
| LineLaws.BackslashBefore | i386/io/ldterm.c:1141-1172 | ... while reprint, literal-next and word erase keep their meaning |
| LineLaws.BackslashStays | i386/io/ldterm.c:1176-1201 | with any other character a backslash stays, unless XCASE gives the two a meaning |
| LineLaws.OthersAreText | i386/io/ldterm.c:1228-1360 | every other character is text |
| LineLaws.FullLine | i386/io/ldterm.c:1239-1268 | a full line takes no more: with IMAXBEL the character is lost, without it the line |
| LineLaws.FullLineEnds | i386/io/ldterm.c:1239-1347 | nor can it be ended by a character that is sent with it |
| LineSpec.QuoteHonestIff | i386/io/ldterm.c:1070-1379 | TS_QUOT keeps meaning that the last character is a backslash, but if and only if a word erase takes that backslash, a line over its limit is dropped for a literal line end, or a quoted erase or kill character that also ends lines sends the line; for every setting of the characters |
| LineSpec.StaleQuoteExample | i386/io/ldterm.c:1117-1147 | for every usual setting: x, blank, backslash, word erase, erase leaves the erase character in place of the blank |
| Emap.Mapper.EmMapIn | i386/io/emap.c:338-445 | mapping in place gives the transducer's output and state; the write position never passes the read position and the output is no longer than the input |
| Emap.Mapper.StrEmMapIn | i386/io/emap.c:610-717 | the STREAMS routine gives the same output and state for the same bytes |
| Emap.Mapper.Take | i386/io/emap.c:360-439 | one character through the four-state switch |
| Emap.Mapper.Search | i386/io/emap.c:414-435 | the two counted-down table searches find what the table says |
| EmapSpec.FindIsFirst | i386/io/emap.c:414-435 | that is the first entry with the key and in its stretch the first output for the character |
| EmapSpec.StaysInsideIff | i386/io/emap.c:303-312 | no search looks beyond the table, for every table emchkmap accepts, if and only if there are compose entries or the bytes behind the last dead key do not read as an end beyond the table, or else every character has an output before the table ends |
| EmapSpec.ProbedInsideIff | i386/io/emap.c:421-435 | one search stays inside if and only if its stretch does or the character is found before the table ends |
| EmapSpec.RunInside | i386/io/emap.c:338-445 | where all stay inside, mapping does not depend on what follows the table in memory |
| EmapSpec.StraysExample | i386/io/emap.c:268-327 | an accepted table of 759 dead keys whose last one is looked up behind the table |
| EmapSpec.CallsDoNotMatter | i386/io/emap.c:338-445 | however input is cut into calls, the total output and the state at the end are the same |
| EmapSpec.RunNoLonger | i386/io/emap.c:356-444 | the output is never longer than the input |
| EmapSpec.PlainIsPointwise | i386/io/emap.c:362-366 | where no character is escaped mapping is character by character |
| EmapSpec.PlainRoundTrip | i386/io/emap.c:362-366 | ... and is undone by a map the other way |
| EmapSpec.DeadPair | i386/io/emap.c:362-437 | a dead key and a mapped key give the one output the table has for the pair, and mapping starts afresh |
| EmapSpec.ComposePair | i386/io/emap.c:362-439 | the compose key and two more characters give the one output the table has for the pair among the compose entries, and mapping starts afresh |
| EmapSpec.SequenceBroken | i386/io/emap.c:372-408 | the compose key inside a sequence is an error and begins a new one; a second dead key is an error and both are lost |
| EmapSpec.Settles | i386/io/emap.c:360-440 | two characters that are not escaped bring mapping back to its start from any state |
| EmapSpec.NothingEarly | i386/io/emap.c:360-440 | nothing comes out of an incomplete sequence or an error, and exactly one character otherwise |
| EmapSpec.FindOutIsFirst | i386/io/emap.c:424-435 | the output found is the first for the character in the stretch, and none is found if and only if there is none |
| EmapSpec.FindNone | i386/io/emap.c:414-419 | a key the table has no entry for gives nothing |
| MapTable.Maps.AddMap | i386/io/emap.c:202-244 | a map already in use is shared and its count raised; otherwise the first free slot takes it; none exactly when there is neither |
| MapTable.Maps.Unmap | i386/io/emap.c:137-164 | the line is without a map, the slot has one user less, every other line keeps its map |
| MapTable.Maps.SetMap | i386/io/emap.c:61-106 | the line has the map, every other line keeps its own, counts are the numbers of users and no map is kept twice; it fails, changing nothing, if and only if the map is unusable or no slot is or becomes free |
| MapTable.Maps.DupMap | i386/io/emap.c:172-192 | one line gets the map of another, or none, and the others keep theirs |

## Left out

- TsSpec.ToShort: ts_cpupri + ts_upri and ts_dispwait are taken modulo 2^16 as in the code; ts_nice is computed from the raw request, and no range is claimed for it when ts_upri is TS_NOCHANGE (i386/disp/ts.c:700).
- Dispatcher.Dispatch.DispatchNext: models the queue part of pswtch; the context switch itself, its VPIX, KPERF and 80386 errata parts, runqueues() and idling in hardware are not modelled, and each splhi section is one atomic step.
- SchedRuns.StepKeepsInv: takes fork up to ts_forkret as one step, and exit up to its swtch; processes that do not exist are records in state SIDL; rt_timeleft, which the code leaves unset at first, starts as 0; ts_kmdpris is any table of priorities.
- RealTime.EnterClass: assumes parameters that rt_parmsin has checked, as its callers do; rt_admin is left out, being ts_admin with fewer checks.
- RunFlags.MarkUnloaded: how CL_SWAPOUT nominates a process, and swapping itself, are not modelled.
- DoubleLong.Ldivide: is stated for divisors other than zero and magnitudes below 2^63; the value of -2^63 is its own negative.
- HrTime.HrTimeT.NewRes: is stated for a nonnegative remainder at a legal old resolution, which hrt_checkres establishes before it is called.
- TimerList.TimerQueue.ClockInt: starts from a list with no entry at zero ticks; hrt_intsleep and hrt_alarm put none there, but for a repeating BSD timer of no ticks. Posting the event, and freeing the event queue's vnode hold, are not modelled.
- TimerList.TimerQueue.CancelTid: handles one timer id; reading the ids and storing the counts in user space (with EFAULT) are not modelled.
- The three interval-timer lists (itimer_timeout and its list routines) are the same delta list on other heads and are not repeated; hrtalarm, hrtsleep and hrtcntl, which copy requests in and out, are left out.
- NameCache.DirNameCache.Enter: counts holds on vnodes and credentials as multisets of the cache's own holds; the statistics counters of ncstats are left out.
- Lookup.Names.LookupPn: takes what VOP_LOOKUP, VOP_READLINK, VFS_ROOT and the mount table answer as fixed during one lookup, and vnodes as equal exactly when they are the same (VOP_CMP); mounts nest (a mounted root lies deeper than what it covers), without which the loops for ".." and mounts need not end.
- Pathname.Pn.FixSlash: is stated where lookuppn calls it, behind pn_skipslash; the buffer in front of pn_buf is never read there.
- Vnode.VnOpen: credentials, vn_rdwr, vn_close and the mode bits are left out; a file system operation is an answer and the hold it takes or gives.
- PollSpec.NeverAsleepOnReady: is about files whose VOP_POLL hands out a pollhead of their own; the arrays of polldats exist from the start and copying in and out is left out.
- DmaIo.RawIo.DmaableRawio: the pages that come back while dma_page_get sleeps are given as a parameter; what other transfers move meanwhile is left out. Page table bits, TLB flushes, b_flags and asynchronous completion are left out, and two virtual pages are never the same physical page.
- CharLists.CharSystem.Putc: waking those who wait for a free block, and cinit, are left out.
- LineEdit.LineDiscipline.Docanon: echo, columns, EUC characters, flow control and the interrupt characters are left out; a chain of message blocks is a sequence of their contents, and block allocation succeeds.
- Emap.Mapper.EmMapIn: a table is given by its parts, the string indices among what follows the outputs; emmapout and emgetmap are left out.
- MapTable.Maps.Unmap: waiting for output to drain before a map is dropped is left out.
- DmaIo.RawIo.DmaBufBreakup: a page in reach of the hardware is transferred through a window that maps it, where the code uses its own address; copying b_error is left out.
- dma_multipage_io and dma_pageio_breakup with dma_iostart are left out; so are the des directory, idtools, the character device drivers and everything else not named in the table.
