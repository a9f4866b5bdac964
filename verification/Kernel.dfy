/**
 The environment of the run loop: what Linux does to the traced processes, as ptrace(2)
 describes it under "Syscall-stops", "PTRACE_EVENT stops" and "Signal-delivery-stop".

 A process runs, stops with a report nobody has read, is stopped with its report read, or is
 dead and not yet reaped. The kernel knows whether a syscall stop is an entry, an exit, or
 the exit of a successful exec; waitpid does not say.
 */
module Kernel {
  import opened Prelude
  import opened TracerModel
  import Linux

  datatype Position =
    | User
    | InSyscall(nr: u64, args: seq<u64>)
    | ExecTail  // the new program is loaded, the exit stop of its execve is still due

  datatype Report =
    | SyscallEntry(regs: Regs)
    | SyscallExit(regs: Regs)
    | ExecExit(regs: Regs)
    | Forked(evt: int, child: Pid)
    | Execed
    | OtherEvent(evt: int)
    | Signalled(sig: Signal)

  datatype Status = Running | Unread(report: Report) | Read(report: Report) | Zombie(killedBy: Option<Signal>)

  /** `pos` and `owesSigstop` leave out a report that has not been handled yet. */
  datatype Proc = Proc(status: Status, pos: Position, owesSigstop: bool) {
    function Pending(): Option<Report> {
      match status
      case Unread(r) => Some(r)
      case Read(r) => Some(r)
      case _ => None
    }

    /** Where the process really is. */
    function TruePos(): Position {
      if Pending().Some? then PositionAfter(pos, Pending().value) else pos
    }

    predicate Dead() { status.Zombie? }
  }

  /**
   The signals the program's wait can name. For any other (a real-time signal) its waitpid call fails instead of
   reporting a status.
   */
  predicate NamedSignal(sig: Signal) { 1 <= sig <= 31 }

  /** The stops a process can make next, from where it is. */
  predicate Legal(pos: Position, r: Report) {
    match r
    case SyscallEntry(_) => pos.User?
    case SyscallExit(_) => pos.InSyscall?
    case ExecExit(_) => pos.ExecTail?
    case Forked(evt, child) => pos.InSyscall? && Linux.CarriesChild(evt) && -0x8000_0000 <= child < 0x8000_0000
    case Execed => pos.InSyscall?
    case OtherEvent(evt) => !Linux.CarriesChild(evt) && evt != Linux.EXEC_EVENT
    case Signalled(sig) => NamedSignal(sig)
  }

  function PositionAfter(pos: Position, r: Report): Position {
    match r
    case SyscallEntry(regs) => InSyscall(regs.nr, regs.args)
    case SyscallExit(_) => User
    case ExecExit(_) => User
    case Execed => ExecTail
    case _ => pos
  }

  /** A new child owes one SIGSTOP stop; the first SIGSTOP stop it makes is that one. */
  function StillOwes(owes: bool, r: Report): bool { owes && r != Signalled(Linux.SIGSTOP) }

  /** What waitpid says of a report. */
  function StatusOf(p: Pid, r: Report): WaitStatus {
    match r
    case SyscallEntry(_) => PtraceSyscall(p)
    case SyscallExit(_) => PtraceSyscall(p)
    case ExecExit(_) => PtraceSyscall(p)
    case Forked(evt, _) => PtraceEvent(p, evt)
    case Execed => PtraceEvent(p, Linux.EXEC_EVENT)
    case OtherEvent(evt) => PtraceEvent(p, evt)
    case Signalled(sig) => Stopped(p, sig)
  }

  function DeathOf(p: Pid, killedBy: Option<Signal>): WaitStatus {
    match killedBy
    case None => Exited(p, 0)
    case Some(sig) => Signaled(p, sig)
  }

  /** The answers to getregs, getevent and the resume while `p` stands at `r`. */
  function ReplyAt(r: Report, now: nat): Reply {
    var regs := if r.SyscallEntry? || r.SyscallExit? || r.ExecExit? then r.regs else Regs(0, [], 0);
    Reply(Ok(regs), Ok(if r.Forked? then r.child else 0), Ok(()), now)
  }

  /** The answers when the process is killed after the handler's first question and before the resume. */
  function ReplyTorn(r: Report, now: nat): Reply { ReplyAt(r, now).(resume := Err(Linux.ESRCH)) }

  /** The answers when `p` has been killed since its stop was read. */
  function ReplyGone(now: nat): Reply { Reply(Err(Linux.ESRCH), Err(Linux.ESRCH), Err(Linux.ESRCH), now) }

  /** A resume sets a process going that is stopped with its report read. */
  function Resumed(procs: map<Pid, Proc>, resumed: seq<Resume>): map<Pid, Proc> {
    if |resumed| == 0 then procs
    else
      var before := Resumed(procs, resumed[..|resumed| - 1]);
      var p := resumed[|resumed| - 1].pid;
      if p in before && before[p].status.Read? then
        var r := before[p].status.report;
        before[p := Proc(Running, PositionAfter(before[p].pos, r), StillOwes(before[p].owesSigstop, r))]
      else before
  }

  // -------------------------------------------- the calls processes made

  datatype Seen = Seen(pid: Pid, report: Option<Report>)  // None: its death

  datatype TrueCall = TrueCall(pid: Pid, nr: u64, args: seq<u64>, ret: int)

  /** The call `p` is inside, going by the kernel's own labels. */
  function OpenCall(seen: seq<Seen>, p: Pid): Option<(u64, seq<u64>)> {
    if |seen| == 0 then None
    else
      var last := seen[|seen| - 1];
      if last.pid != p then OpenCall(seen[..|seen| - 1], p)
      else
        match last.report
        case None => None
        case Some(SyscallEntry(regs)) => Some((regs.nr, regs.args))
        case Some(SyscallExit(_)) => None
        case Some(Execed) => None
        case _ => OpenCall(seen[..|seen| - 1], p)
  }

  /** Every call that returned, in the order of the returns; a successful exec does not return. */
  function Completed(seen: seq<Seen>): seq<TrueCall> {
    if |seen| == 0 then []
    else
      var last := seen[|seen| - 1];
      var before := Completed(seen[..|seen| - 1]);
      var open := OpenCall(seen[..|seen| - 1], last.pid);
      if last.report.Some? && last.report.value.SyscallExit? && open.Some? then
        before + [TrueCall(last.pid, open.value.0, open.value.1, last.report.value.regs.ret)]
      else before
  }
}
