# loi, verified in Dafny

loi traces the system calls of a command and everything it forks, and prints one record per completed call. This
project models the parts of it that keep state over a whole run and proves what they promise for every run:

- the ptrace run loop (`Tracer.dfy`), as a class whose methods are proved against a step function; what that loop does
  to any stream of wait statuses (`TracerStreams.dfy`); the kernel as a nondeterministic environment
  with its own numbers (`Kernel.dfy`, `Linux.dfy`); tracer and kernel together, with invariants of every interleaving
  (`System.dfy`, `Conservation.dfy`);
- the walkers over another process's memory: the page-chunked C-string reader (`TraceeMemory.dfy`, `Bits.dfy`) and the
  argv walk (`ArgvWalk.dfy`, `LittleEndian.dfy`);
- the pipe through which a failed exec reports its errno (`ExecPipe.dfy`);
- flag decoding (`Flags.dfy`), argument text and its reader (`Text.dfy`, `Escape.dfy`, `Render.dfy`);
- the stateful one-line formatter (`Terminal.dfy`, `Pretty.dfy`, `PrettyRuns.dfy`) with a reader of its
  lines (`LineReader.dfy`) and of its pages (`PageReader.dfy`), the filter (`Filter.dfy`) and the
  sink with its latched error (`Sink.dfy`, `SinkRuns.dfy`);
- the parts put together (`EndToEnd.dfy`).

Code that works in place is a class or a method with a loop, proved against a function; the properties are lemmas about
that function. `dafny verify dfyconfig.toml` checks everything.

## The environment

What is assumed of Linux is the relation `System.Enabled` with `Kernel.Legal`, after ptrace(2), "Syscall-stops",
"PTRACE_EVENT stops" and "Signal-delivery-stop":

- a process stops only where its position allows it: a syscall entry in user mode, an exit, fork or exec event inside a
  call, one exit stop after an exec event; signals and other events anywhere;
- a stopped process moves only when it is resumed, or is killed, which may happen at any time: also between the moment
  waitpid reports its stop and the moment the tracer acts on it, between a handler's first question about it and the
  resume, and, of the root at its exec stop, before the loop's first resume. A ptrace call on a process whose stop was reported fails only because of such a death, with ESRCH;
- a fork event names a pid that was never used before (pids are not reused), and the child starts in user mode owing one
  SIGSTOP stop, which is the first SIGSTOP stop it makes; no thread other than the leader execs;
- waitpid says ECHILD only when nothing traced is left, living or dead; it may be interrupted, and it may fail with any
  other errno at any time. One such failure is a signal the program's wait cannot name: only signals 1 to 31 are reported
  as statuses.

Everything in `TracerStreams` needs none of this: it holds of any stream of statuses and any answers.

## Where the code says more than its documentation

- An `execve` that succeeds inside the run loop has no event: the exec stop drops the open entry and the exit stop is
  skipped. "Once per completed syscall" is proved with that exception, since such a call never returns.
- If a child's exit is handled before its parent's fork event, a fresh entry for it stays in the map
  (`TracerStreams.ForkRaceAfterExit`) and the loop ends through ECHILD.
- If a process is killed at a fork stop before the tracer handles that stop, the loop can return Ok while the child still
  runs, untracked; `System.OkCanLeaveALostChild` gives the run, and `Conservation.OkLeavesExactly` says which children are left:
  exactly those of which nothing but events was handled, since any syscall or signal stop would have registered them.
- An exec stop of a pid that is not in the map is dropped; `TracerStreams.StepProjects` says that this is exactly when a
  step differs from the process's own, and `Conservation.ExecsAlwaysRegistered` that it does not happen in real runs.
- An unreadable first argv *string* gives the list `["<unreadable>"]`; only an unreadable first *slot* is an error.
- The page sum in `read_cstr` overflows on the last page of the address space and nowhere else
  (`TraceeMemory.PageSumOverflows`). The model wraps, as a release build does, and is right there too; a build with
  overflow checks would panic on that page.
- The names printed for open flags lose information exactly when both access-mode bits are set or O_TMPFILE's own bit
  stands without O_DIRECTORY's (`Flags.OpenFlagsLossless`).
- A burst line repeats the latest lookup that had a path; events in between that are no lookup, or whose decoding failed,
  do not end a burst.
- The JSON writer wraps every error of the object as kind `Other`, so in JSON form a reader that goes away is reported as
  an error unless the pipe breaks exactly before a newline (`SinkRuns.JsonClosesQuietly`); in pretty form it never is.

## Model

| member | source | states |
|---|---|---|
| TracerModel.ChildPidFromEvent | crates/loi-core/src/tracer.rs:250-252 | the event message cut to a signed 32-bit pid: same residue, and unchanged when it fits |
| TracerModel.Tracer.constructor | crates/loi-core/src/tracer.rs:334-340 | a new tracer knows one process, just past its exec, and does not follow forks |
| TracerModel.Tracer.WithFollowForks | crates/loi-core/src/tracer.rs:109-112 | sets the flag and nothing else |
| TracerModel.Tracer.EntryOrNewChild | crates/loi-core/src/tracer.rs:174 | a pid not in the map gets a fresh child entry, one that is keeps its own |
| TracerModel.Tracer.HandleSyscallStop | crates/loi-core/src/tracer.rs:169-206 | map, events, resumes and result after a syscall stop are those of the step function, on every answer of getregs and resume |
| TracerModel.Tracer.HandleEvent | crates/loi-core/src/tracer.rs:208-227 | the same for fork, exec and other events, also when getevent fails |
| TracerModel.Tracer.HandleSignal | crates/loi-core/src/tracer.rs:229-239 | the same for a signal stop: what is injected and what is remembered |
| TracerModel.Tracer.HandleStatus | crates/loi-core/src/tracer.rs:152-167 | dispatch; deaths forget the process, other statuses change nothing |
| TracerModel.Tracer.Run | crates/loi-core/src/tracer.rs:132-150 | the loop on any answers of waitpid and ptrace ends in the state and with the result of the loop function |
| TracerModel.NothingAfterFinish | crates/loi-core/src/tracer.rs:132-150 | once the loop has returned, later answers make no difference |
| TracerStreams.RunBegins | crates/loi-core/src/tracer.rs:132-133 | the loop begins with one resume of the root and, when that fails, ends with its errno |
| TracerStreams.WaitFailureResult | crates/loi-core/src/tracer.rs:135-146 | EINTR changes nothing, ECHILD ends the loop well if and only if the root is not in the map, any other errno ends it; with the kernel's own numbers |
| TracerStreams.HandlerResult | crates/loi-core/src/tracer.rs:133-149 | after a status the loop ends if and only if the handler failed or the map is empty |
| TracerStreams.EventRegisters | crates/loi-core/src/tracer.rs:208-227 | after an event stop whose message is a process id, a new pid is in the map if and only if it is that one and the event is 1, 2 or 3, and then as a fresh child |
| TracerStreams.StopRegisters | crates/loi-core/src/tracer.rs:174-230 | a syscall or signal stop registers its own process and no other |
| TracerStreams.RunIsFold | crates/loi-core/src/tracer.rs:132-150 | while the loop runs it has handled every status it got, in order, and resumed the root once before |
| TracerStreams.FollowForksOnlyFilters | crates/loi-core/src/tracer.rs:197-205 | with the flag off or on, maps, resumes and results agree at every step of any stream, and the off events are the on events of the root |
| TracerStreams.StepProjects | crates/loi-core/src/tracer.rs:152-239 | a step of the map machine seen from one pid is that process's own step, if and only if it is not an exec stop of an unknown pid |
| TracerStreams.Projection | crates/loi-core/src/tracer.rs:152-239 | over any interleaving, what is kept, emitted and resumed for a pid is a function of that pid's own stops |
| TracerStreams.ProjectionExactly | crates/loi-core/src/tracer.rs:152-239 | that holds all along a stream if and only if every exec stop of the pid finds it in the map |
| TracerStreams.ProjectionNeedsRegisteredExec | crates/loi-core/src/tracer.rs:215-220 | a stream on which that fails for lack of its condition |
| TracerStreams.PairSnoc | crates/loi-core/src/tracer.rs:180-203 | pairing a list of stops can be carried on from what the list so far leaves open |
| TracerStreams.EventsArePairs | crates/loi-core/src/tracer.rs:169-227 | the events of a pid are the entry and exit stops of its own history, paired left to right, each once, exec stops voiding the call they interrupt |
| TracerStreams.EveryStopAnsweredOnce | crates/loi-core/src/tracer.rs:169-239 | every stop of a process is answered by exactly one resume of it, in order, with the right signal or none |
| TracerStreams.DeathIsNotAnswered | crates/loi-core/src/tracer.rs:161-164 | a death is answered by no resume and no event, and removes exactly its pid |
| TracerStreams.SignalsConserved | crates/loi-core/src/tracer.rs:229-239 | the signals injected into a process are those reported for it, in order, less the first SIGSTOP if it began as a child |
| TracerStreams.ForkRaceConfluent | crates/loi-core/src/tracer.rs:174-213 | the fork event before or after any reports of other processes, its living child among them: same map, same events, and the same resumes of every process (of the parent too when it has no stops of its own in between) |
| TracerStreams.ForkRaceAfterExit | crates/loi-core/src/tracer.rs:210-214 | when the child's exit came first, the one difference is a fresh entry for it: same events and, as above, same resumes of every process |
| System.ReachGood | crates/loi-core/src/tracer.rs:132-239 | after every sequence of kernel and tracer actions the events are true and the loop has ended as it may, and unless it has failed the whole invariant holds (views, stale entries, unregistered children, open calls) |
| System.ViewIsTruth | crates/loi-core/src/tracee.rs:12-49 | until the loop fails, phase and skip flag of every process with no report outstanding say exactly where the kernel has it: inside which call, finishing an exec, or in user mode; and the SIGSTOP flag whether one is still owed |
| System.EventsAreCompletedCalls | crates/loi-core/src/tracer.rs:114-119 | in every run, failed ones included, the events are the calls whose return the tracer got at, in order, each once, of the root or of all when following |
| System.NoneStranded | crates/loi-core/src/tracer.rs:132-150 | at the head of a loop that has not failed no living process is left stopped with its report read |
| System.NeverStuck | crates/loi-core/src/tracer.rs:132-150 | at the head of the loop waitpid has an answer or a process can still move |
| System.FailsOnlyOnFault | crates/loi-core/src/tracer.rs:126-145 | a run ends in an error if and only if the root was killed before the first resume, or a process between its report and the end of its handler, or waitpid failed otherwise; and the error carries that errno |
| System.NeverTraceeGone | crates/loi-core/src/tracer.rs:130-145 | the loop returns Ok, the ESRCH of a killed process or the errno of a failing waitpid, never TraceeGone, stale entries or not, whatever the first resume answered |
| System.OkLeavesOnlyLost | crates/loi-core/src/tracer.rs:121-124 | when it returns Ok, all that can remain are children whose parent died at the unhandled fork stop; none if there was no such death |
| System.OkCanLeaveALostChild | crates/loi-core/src/tracer.rs:121-124 | a run in which one does remain |
| Conservation.OkLeavesExactly | crates/loi-core/src/tracer.rs:121-124 | when the loop returns Ok, a process is left if and only if it is such a child and no syscall stop, signal stop or death of it was handled |
| Conservation.OkLeavesNothingIff | crates/loi-core/src/tracer.rs:114 | the loop has waited for every process if and only if there is no such child |
| Conservation.SystemRunsTheLoop | crates/loi-core/src/tracer.rs:132-150 | the tracer inside the system is the wait loop, run on what the kernel answered, the first resume included |
| Conservation.RunKept | crates/loi-core/src/tracer.rs:132-150 | its map, events and resumes are those of all the statuses it got, whether and however it has ended |
| Conservation.ExecsAlwaysRegistered | crates/loi-core/src/tracer.rs:215-220 | in every run that has not failed, exec stops are of processes in the map |
| Conservation.SignalsConservedInRuns | crates/loi-core/src/tracer.rs:229-239 | signal conservation for every process, living or reaped, in every run that has not failed, running or ended; none withheld from the root |
| Conservation.ResumesMatchStopsInRuns | crates/loi-core/src/tracer.rs:132-239 | in the same runs, each handled stop of every process, living or reaped, has had its one resume, in order, and its death none |
| Bits.OrPageMask | crates/loi-memory/src/lib.rs:99 | OR with twelve low ones, for every number |
| TraceeMemory.PageBits | crates/loi-memory/src/lib.rs:99-100 | the bit arithmetic gives the distance to the end of the page, on every page of the address space |
| TraceeMemory.PageSumOverflows | crates/loi-memory/src/lib.rs:99 | the sum overflows 64 bits if and only if the cursor is on the last page |
| TraceeMemory.BytesToPageEnd | crates/loi-memory/src/lib.rs:99-100 | the two lines as a method |
| TraceeMemory.ReadBytesExactly | crates/loi-memory/src/lib.rs:65-81 | the bytes at the addresses asked for if all are mapped, EFAULT (14) otherwise; EPERM (1) becomes the fallback's ENOSYS (38), another refusal keeps its errno |
| TraceeMemory.NulPositionIsFirst | crates/loi-memory/src/lib.rs:103 | the position found is that of the first NUL, and none is found only if there is none |
| TraceeMemory.ReadCstr | crates/loi-memory/src/lib.rs:93-113 | the loop agrees with a reader of one byte at a time on success, truncation and error, and its reads are a front of the list of pieces |
| TraceeMemory.ChunksAreBytes | crates/loi-memory/src/lib.rs:86-113 | scanning page pieces equals scanning bytes, for every address, cap and page-granular memory |
| TraceeMemory.PiecesStayInPages | crates/loi-memory/src/lib.rs:98-102 | no read crosses a page |
| TraceeMemory.PiecesAreAdjacent | crates/loi-memory/src/lib.rs:98-109 | the reads follow on one another and cover the range asked for and no more |
| TraceeMemory.PiecesAreFew | crates/loi-memory/src/lib.rs:98-110 | at most max/4096 + 2 reads, one fewer from a page start |
| TraceeMemory.CstrExactly | crates/loi-memory/src/lib.rs:93-113 | in terms of memory alone: the bytes up to the first NUL, TruncatedCstr when the cap comes first, EFAULT when a hole does |
| LittleEndian.LeRoundTrip | crates/loi-syscalls/src/decoders/execve.rs:46-52 | bytes written little-endian are read back as the number |
| ArgvWalk.DecodeArgvEntry | crates/loi-syscalls/src/decoders/execve.rs:38-44 | an entry is the C string of at most 256 bytes, decoded |
| ArgvWalk.EntryExactly | crates/loi-syscalls/src/decoders/execve.rs:38-44 | the text of the bytes up to the NUL if fewer than 256 come before it, TruncatedCstr with 256 of them, EFAULT at a hole |
| ArgvWalk.SlotExactly | crates/loi-syscalls/src/decoders/execve.rs:46-52 | a slot is the number in the eight bytes at its address, least significant first, or EFAULT if one of them is not mapped |
| ArgvWalk.WalkArgv | crates/loi-syscalls/src/decoders/execve.rs:90-123 | the loop computes the walk function, sentinels, errors and early ends included |
| ArgvWalk.ArgvRoundTrip | crates/loi-syscalls/src/decoders/execve.rs:90-123 | an argv laid out in memory comes back exactly with 63 strings or fewer, and as its first 64 and "..." with 64 or more |
| ArgvWalk.ArgvWithHole | crates/loi-syscalls/src/decoders/execve.rs:96-115 | an argv laid out up to entry k < 64, whose k-th string or slot cannot be read, comes back as its first k strings and "<unreadable>"; with k = 0 and an unreadable slot as the error |
| ArgvWalk.WalkExactly | crates/loi-syscalls/src/decoders/execve.rs:90-123 | after any readable front: "..." at 64 entries, nothing at a NULL slot, "<unreadable>" or the first slot's error at a failure |
| ArgvWalk.NoMarkMeansNull | crates/loi-syscalls/src/decoders/execve.rs:105-122 | a list that ends in neither mark holds every string of the argv, and a NULL slot was read behind them |
| ArgvWalk.FailsOnlyOnFirstSlot | crates/loi-syscalls/src/decoders/execve.rs:68-73 | the walk fails if and only if the first slot is unreadable; otherwise at most 64 entries and a mark |
| ExecPipe.WriteAll | crates/loi-core/src/tracer.rs:354-364 | Ok if and only if all bytes are in the pipe, a strict front otherwise; an error is EIO or that of a failed call, never EINTR; ends on every schedule with finitely many interruptions |
| ExecPipe.ReadFull | crates/loi-core/src/tracer.rs:366-377 | takes the front of what the pipe holds, all of it up to the buffer when nothing fails |
| ExecPipe.ReadExecErrno | crates/loi-core/src/tracer.rs:344-352 | four bytes are an errno, anything else is TraceeGone |
| ExecPipe.ReportExecFailure | crates/loi-core/src/tracer.rs:272-284 | the errno's bytes or a front of them are in the pipe |
| ExecPipe.FinishParent | crates/loi-core/src/tracer.rs:298-342 | every path through the two waits; Ok if and only if the child was stopped by SIGSTOP, options and continue were accepted, and the second status is an event or a SIGTRAP stop; the map is then the one the system of tracer and kernel starts with |
| ExecPipe.PathExactly | crates/loi-core/src/tracer.rs:298-342 | a tracer, the pipe or an error, each with its exact condition on the statuses; the first failed call's errno comes out |
| ExecPipe.VerdictExactly | crates/loi-core/src/tracer.rs:344-352 | with four bytes or more, the first four as a signed little-endian word, if the platform names that errno; with fewer, TraceeGone |
| ExecPipe.SucceededSpawn | crates/loi-core/src/tracer.rs:298-342 | a child stopped by SIGSTOP and then reported at its exec event or SIGTRAP stop comes out as the tracer every run starts with |
| ExecPipe.VerdictOnErrno | crates/loi-core/src/tracer.rs:344-352 | all four bytes come back as that errno, any strict front as TraceeGone |
| ExecPipe.FailedSpawn | crates/loi-core/src/tracer.rs:272-352 | child and parent together, whether the child gets to its SIGSTOP stop or ends before it: never a wrong errno, and the right one over every schedule of short transfers and interruptions |
| Flags.FastPathAgrees | crates/loi-syscalls/src/decoder.rs:268-272 | the early return on a zero word changes nothing |
| Flags.SelectedExactly | crates/loi-syscalls/src/decoder.rs:273-276 | the names are those of the non-zero table masks contained in the value, no more and no fewer |
| Flags.SelectedInOrder | crates/loi-syscalls/src/decoder.rs:273-276 | in table order |
| Flags.DecodeFlagsExactly | crates/loi-syscalls/src/decoder.rs:268-277 | the names of the table, in order, at exactly the non-zero masks that are subsets of the value |
| Flags.DecodedFlagsReadBack | crates/loi-syscalls/src/decoder.rs:268-277 | from the names of any one-bit table the value is recovered, up to the bits the table knows |
| Flags.ProtLossless | crates/loi-syscalls/src/decoder.rs:242-247 | the protection names lose none of the three bits, and PROT_NONE is printed if and only if the word is zero |
| Flags.ProtNames | crates/loi-syscalls/src/decoder.rs:230-247 | PROT_NONE for zero, otherwise PROT_READ, PROT_WRITE and PROT_EXEC by the bits 0, 1 and 2 |
| Flags.DecodeOpenFlags | crates/loi-syscalls/src/decoders/openat.rs:48-66 | the loop with its two skips gives the access mode followed by the printed table entries |
| Flags.OpenFlagNames | crates/loi-syscalls/src/decoders/openat.rs:22-66 | the printed list bit by bit: the access mode's name by the two low bits, then each of the fourteen names exactly when its bit is set, O_TMPFILE with both of its bits and O_DIRECTORY with bit 16 alone |
| Flags.OpenFlagsLossless | crates/loi-syscalls/src/decoders/openat.rs:17-66 | the masks of the printed names put together are the flags cut to the known bits, if and only if the access mode is valid and O_TMPFILE's own bit does not stand alone |
| Flags.DirectoryOnce | crates/loi-syscalls/src/decoders/openat.rs:20-22 | O_DIRECTORY is printed if and only if its bit is set and O_TMPFILE is not printed |
| Text.DigitsReadBack | crates/loi-output/src/format_common.rs:30-40 | octal, decimal and hexadecimal texts give back their number |
| Escape.CharReadBack | crates/loi-output/src/format_common.rs:19 | every character can be read back from its escape, whatever follows |
| Escape.EscapesExactly | crates/loi-output/src/format_common.rs:19 | the exact text of every escape: six backslash pairs, printable ASCII as it is, and minimal lower-case hex for the rest |
| Escape.ListReadBack | crates/loi-output/src/format_common.rs:41-53 | a reader recovers every list of strings from the printed argv text |
| Escape.RenderArgv | crates/loi-output/src/format_common.rs:41-53 | the pushes build the list text |
| Render.RenderedPrintable | crates/loi-output/src/format_common.rs:17-58 | every rendered argument is printable ASCII, so neither a control sequence nor a line break, whatever the tracee's memory holds |
| Render.ArgReadBack | crates/loi-output/src/format_common.rs:17-58 | for every kind but flags and byte buffers, the argument is recovered from its text by a strict reader: 0o and 0x prefixes, NULL for the null pointer alone |
| Render.BytesReadBack | crates/loi-output/src/format_common.rs:33-37 | of a byte buffer the text is recovered, and whether it was longer than what is shown, which is what the dots say |
| Render.FlagNamesReadBack | crates/loi-output/src/format_common.rs:23-29 | the list of flag names is recovered from its text, if and only if it is not the one name 0 |
| Render.Basename | crates/loi-output/src/format_common.rs:135 | what follows the last slash: free of slashes, a tail of the path, preceded by a slash unless it is all of it |
| Render.FirstBasenameIs | crates/loi-output/src/format_common.rs:131-138 | the first argument that is labelled pathname and is a path decides, and without one there is no basename |
| Render.HasBasename | crates/loi-output/src/format_common.rs:131-138 | there is a basename if and only if some argument labelled pathname is a path |
| Render.FindLookupBasename | crates/loi-output/src/format_common.rs:127-139 | the loop with early return |
| Terminal.Writer.Write | crates/loi-output/src/pretty.rs:163-170 | a write is taken in full or up to the first failure |
| Terminal.StripPaint | crates/loi-output/src/pretty.rs:240-243 | styling a clean text does not change what a terminal shows, whatever follows |
| Terminal.PaintIs | crates/loi-output/src/pretty.rs:240-243 | a styled text stands between its opening and its closing control sequence |
| Pretty.WritePidColumnColor | crates/loi-output/src/pretty.rs:232-247 | the pid column, bracket or glyph, coloured |
| Pretty.WritePidColumnPlain | crates/loi-output/src/pretty.rs:251-265 | the pid column, plain |
| Pretty.WriteRet | crates/loi-output/src/pretty.rs:301-324 | the return value with its errno, in all three forms |
| Pretty.WriteEvent | crates/loi-output/src/pretty.rs:163-224 | the line, in full or torn at the first failure; widths grow in any case, basename and pid are remembered only after a full line with a basename |
| Pretty.NameStyles | crates/loi-output/src/pretty.rs:272-294 | which style the name gets: dimmed lines first, then no colour, then no category colours, then the category's |
| PrettyRuns.ColourErasure | crates/loi-output/src/pretty.rs:201-217 | over every run, with any theme, the coloured output shows as the plain output, and both leave the same state |
| PrettyRuns.WidthsAreMaxima | crates/loi-output/src/pretty.rs:181-190 | with alignment on the tracked widths are the maxima over the whole history, without it they stay zero |
| PrettyRuns.Aligned | crates/loi-output/src/pretty.rs:181-213 | the first parenthesis of every line, burst or not, stands after the widest pid so far, a space and the widest name so far |
| PrettyRuns.FrontOfLine | crates/loi-output/src/pretty.rs:181-213 | every character before the argument list: bracketed pid or right-aligned glyph, a space, the name, each filled up to the widths in force, which without alignment are the line's own |
| PrettyRuns.ColumnNeverMovesBack | crates/loi-output/src/pretty.rs:18-23 | that column never decreases |
| PrettyRuns.StateIsLatest | crates/loi-output/src/pretty.rs:219-222 | the remembered basename and pid are those of the latest lookup with a path, or both unset |
| PrettyRuns.BurstIff | crates/loi-output/src/pretty.rs:192-196 | a line is a burst line if and only if grouping is on and it repeats that lookup |
| PrettyRuns.BurstAnchor | crates/loi-output/src/pretty.rs:192-222 | a burst line has pid and basename of the nearest bracketed lookup line above it, with only burst lines between |
| PrettyRuns.LineShowsPid | crates/loi-output/src/pretty.rs:251-265 | the pid can be read off a plain line if and only if it is not a burst line |
| LineReader.ArgSkipped | crates/loi-output/src/format_common.rs:17-58 | the end of any rendered argument can be found from the left, quotes and separators inside strings notwithstanding |
| LineReader.ArgsReadBack | crates/loi-output/src/pretty.rs:173-178 | the argument texts can be told apart in the joined list |
| LineReader.LineReadBack | crates/loi-output/src/pretty.rs:163-217 | from a plain line in any state the name, every argument text, the return value, the errno's symbol and description and the duration can be read back, so no string of the tracee's can forge them; the errno is looked up exactly for returns between -2^31 and 0 |
| PageReader.LineIsOneLine | crates/loi-output/src/pretty.rs:208-217 | a plain line holds no newline but its last character and no escape character |
| PageReader.PageLines | crates/loi-output/src/pretty.rs:153-217 | the text of a page splits into exactly the lines printed, one for each event |
| PageReader.PageReadBack | crates/loi-output/src/pretty.rs:163-217 | from the text of a page alone, what the n-th line says is read back, errno and duration included |
| PageReader.LookupLineIff | crates/loi-output/src/format_common.rs:113-139 | a line can be seen to be a lookup with a path exactly when its event has a basename, which is when its name is one of the seven lookups' and a path is labelled pathname |
| PageReader.ColouredLine | crates/loi-output/src/pretty.rs:163-217 | the style of every part of a coloured line; all of it is dim exactly for a lookup that returned -2 with dimming on |
| PageReader.PidsRecoverable | crates/loi-output/src/pretty.rs:192-265 | the reader recovers every pid of a run from the text of its page, burst lines included |
| PageReader.PidsOnTheTerminal | crates/loi-output/src/pretty.rs:192-265 | and from what a terminal shows of it, coloured or not |
| PageReader.FrontReadBack | crates/loi-output/src/pretty.rs:163-217 | all of that and the pids are read back also when any text follows the run |
| Filters.CompileGlobs | crates/loi-filter/src/lib.rs:126-154 | the loop compiles the trimmed non-empty segments, or gives the error |
| Filters.TrimIs | crates/loi-filter/src/lib.rs:133 | trimming takes the Unicode white space off both ends and nothing else; nothing is left if and only if all of it is white space |
| Filters.CompiledExactly | crates/loi-filter/src/lib.rs:126-154 | a gate is off if and only if there is no list or only white space between its commas; otherwise its patterns are the trimmed non-empty segments, all of which parse |
| Text.JoinOfSplit | crates/loi-filter/src/lib.rs:132 | the segments are what stands between the commas: joined by commas they are the list again, and none holds one |
| Filters.LeftmostInvalid | crates/loi-filter/src/lib.rs:132-153 | the error of a list names its leftmost pattern that does not parse; if all parse, there is an error if and only if there are patterns and they do not build, and it names the pattern the builder blames or else the whole list |
| Filters.LeftErrorFirst | crates/loi-filter/src/lib.rs:132-142 | of two lists joined by a comma the left one's invalid pattern comes first |
| Filters.ListsJoin | crates/loi-filter/src/lib.rs:54-79 | joining lists with a comma joins what they let through; a list without patterns adds nothing |
| Sink.WriteJson | crates/loi-output/src/json.rs:33-69 | the object, a newline, and which error each failure becomes |
| Sink.DecoderIsUsed | src/main.rs:151-161 | a decoder that succeeds gives the call that is shown, and the category |
| Sink.FallbackShowsRegisters | src/main.rs:163-198 | without one, or when it fails, the six registers are shown in order as arg0 to arg5, without a category |
| Sink.PassesIffWanted | crates/loi-filter/src/lib.rs:85-123 | the two stages of the filter together: with --fail a negative return, with names a pattern that hits the name, with paths a pattern that hits some path argument, and no other condition |
| Sink.PassingIsWanted | src/main.rs:123-133 | the records are such events, every such event is among them, and with no option set all are |
| Sink.SinkState.constructor | src/main.rs:94-104 | a new sink stands as after no events |
| Sink.SinkState.Record | src/main.rs:166-172 | a broken pipe closes, the first other error is kept |
| Sink.SinkState.Handle | src/main.rs:123-149 | after one more event, page, latches and formatter state are those of the history with it; after an error nothing is written |
| Sink.SinkState.HandleAll | src/main.rs:106 | the same for a whole run |
| Sink.SinkState.Finish | src/main.rs:174-182 | the recorded error if there is one, otherwise that of the last flush unless it is a broken pipe |
| SinkRuns.PageIsPrefix | src/main.rs:123-149 | what gets out is the rendering of the events passing the whole filter, cut where the writer fails; no error if and only if nothing was cut |
| SinkRuns.WrittenInFull | src/main.rs:133-148 | the records before the first error are complete, and of the next one there is a proper part at most |
| SinkRuns.NothingAfterError | src/main.rs:124-126 | records after the first error change nothing |
| SinkRuns.PageIsPrettyRun | src/main.rs:134-141 | in pretty form the page is a formatter run, so colour, column and burst results hold of it |
| SinkRuns.PrettyClosesQuietly | src/main.rs:166-182 | in pretty form a reader that goes away is never reported, whether the last flush succeeds or finds the pipe broken too |
| SinkRuns.JsonClosesQuietly | src/main.rs:166-182 | in JSON form it goes unreported, with either answer of the last flush, if and only if all was written or the pipe broke just before a newline |
| SinkRuns.JsonReportsAClosedPipe | crates/loi-output/src/json.rs:66 | for one, a pipe closed from the start is reported as another error |
| EndToEnd.ArgvOnThePage | crates/loi-syscalls/src/decoders/execve.rs:74-88 | an argv of any length in the tracee's memory, walked and printed in some line of a run, is read back from the text of the page: all of it, or its first 64 strings and the mark |
| EndToEnd.OpenFlagsOnThePage | crates/loi-syscalls/src/decoders/openat.rs:99-106 | the known bits of an openat's flags are read off the page, under the exact condition of Flags.OpenFlagsLossless |
| EndToEnd.DecodedIsLabelled | crates/loi-syscalls/src/decoders/openat.rs:99-106 | the calls the lookup decoders and the fallback make label every path and quote nothing else, so their lines can be told |
| EndToEnd.SinkPageShowsPids | src/main.rs:123-164 | every pid of the records the sink prints can be read off the terminal |
| EndToEnd.PageShowsWhatIsWanted | src/main.rs:123-149 | read off the terminal, coloured or not: every line has a negative return value under --fail, a name and a path hit by a pattern under the lists, and every event the options ask for has its line |
| EndToEnd.JsonPageLines | crates/loi-output/src/json.rs:66-67 | in JSON form the lines of the page are the objects, one for each record |
| EndToEnd.TornPageReadBack | src/main.rs:123-164 | from a page that was cut short, every record before the cut is read back: pid, name, arguments, return value, errno and duration |
| EndToEnd.RecordsAreRealCalls | src/main.rs:106 | in every run, the calls handed to the printer are the completed calls of the processes shown, in order and each once, less those that the options do not ask for |

## Left out

- Real system calls: fork, execvp, waitpid, ptrace, process_vm_readv, read and write are the environment, a memory
  snapshot and schedules of answers. The register layouts of regs.rs are field copies.
- `spawn`'s checks of the command line (empty command, interior NUL), `try_child`, `Drop`, logging, CLI parsing.
- Time: `Instant` is a natural number read while a stop is handled; `fmt_duration` is an abstract function.
- Glob syntax and matching, UTF-8 decoding, the JSON text, the errno table, the syscall name table and the bytes of the
  terminal styles are abstract. Errno descriptions and durations are assumed free of the escape character and of newlines,
  durations also of `<`, and the names of syscalls, flags and errnos to be of letters, digits and underscores, as in the
  tables.
- The flag constants are those of x86_64 Linux; a word is the set of its one-bits, since only
  AND, OR and equality are used.
- TraceeMemory.ReadCstr: agreement with the byte reader is stated for memory mapped in whole 4 KiB pages, as the page
  size on x86_64 and aarch64 guarantees; for other memory the loop is still tied to the scan over its pieces.
- Byte order is little-endian, the native order of both supported targets.
- ExecPipe.WriteAll: a schedule with interruptions for ever is excluded, because the loop does not end on it.
- The page is a text of characters; a failure inside the bytes of one character counts as before
  it, and what BufWriter holds back until the flush counts as written.
- What a decoder answers is part of the event's arrival, because it reads memory at that moment; of the lookup decoders
  the shape of the argument list is modelled, the other decoders (close, read, mmap, clone and so on) and the registry's
  map are not.
- Exec by a thread other than the leader and reuse of pids are outside the environment.
- `Filter::parse` beyond its two calls of `compile_globs`; `PrettyConfig`'s builders; `arg_to_json`.
