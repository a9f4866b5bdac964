/**
 The ptrace run loop of `loi-core`: the per-process state of tracee.rs, and the
 handlers and wait loop of tracer.rs.

 Every system call a handler makes is answered by a `Reply`, so the environment
 is data. The `Tracer` class is the program; `Step` and `RunOn` are the
 functions its methods are proved against, and TracerStreams and System prove
 what those functions achieve.
 */
module TracerModel {
  import opened Prelude

  type Pid = int
  type Signal = int
  type Errno = int

  const SIGSTOP: Signal := 19
  const ECHILD: Errno := 10
  const EINTR: Errno := 4

  const EVENT_FORK := 1
  const EVENT_VFORK := 2
  const EVENT_CLONE := 3
  const EVENT_EXEC := 4

  datatype Regs = Regs(nr: u64, args: seq<u64>, ret: int)

  // ------------------------------------------------------------- tracee.rs

  datatype Phase =
    | Entry
    | Exit(nr: u64, args: seq<u64>, startedAt: nat)

  datatype Tracee = Tracee(
    phase: Phase,
    awaitingInitialSigstop: bool,
    skipNextSyscallStop: bool
  )

  function NewRoot(): Tracee { Tracee(Entry, false, true) }

  function NewChild(): Tracee { Tracee(Entry, true, false) }

  // ------------------------------------------- what the loop sees and does

  datatype WaitStatus =
    | PtraceSyscall(pid: Pid)
    | PtraceEvent(pid: Pid, evt: int)
    | Stopped(pid: Pid, sig: Signal)
    | Exited(pid: Pid, code: int)
    | Signaled(pid: Pid, sig: Signal)
    | Continued(pid: Pid)
    | StillAlive

  predicate IsDeath(status: WaitStatus) { status.Exited? || status.Signaled? }

  /** What the kernel answers while one status is handled. */
  datatype Reply = Reply(
    regs: Result<Regs, Errno>,
    message: Result<int, Errno>,
    resume: Result<(), Errno>,
    now: nat
  )

  datatype Error = Ptrace(errno: Errno) | TraceeGone | ExecFailed(errno: Errno)

  datatype SyscallEvent =
    SyscallEvent(pid: Pid, nr: u64, args: seq<u64>, ret: int, duration: nat)

  /** One accepted `ptrace::syscall(pid, sig)`. */
  datatype Resume = Resume(pid: Pid, sig: Option<Signal>)

  datatype Config = Config(rootPid: Pid, followForks: bool)

  type Tracees = map<Pid, Tracee>

  datatype Outcome = Outcome(
    tracees: Tracees,
    emitted: seq<SyscallEvent>,
    resumed: seq<Resume>,
    result: Result<(), Error>
  )

  predicate IsForkEvent(evt: int) {
    evt == EVENT_FORK || evt == EVENT_VFORK || evt == EVENT_CLONE
  }

  /** `raw as i32`: keep the low 32 bits, as a signed number. */
  function ChildPidFromEvent(raw: int): (pid: Pid)
    ensures -0x8000_0000 <= pid < 0x8000_0000
    ensures exists k: int :: raw == pid + k * 0x1_0000_0000
    ensures -0x8000_0000 <= raw < 0x8000_0000 ==> pid == raw
  {
    var low := raw % 0x1_0000_0000;
    var pid := if low < 0x8000_0000 then low else low - 0x1_0000_0000;
    assert raw == pid + (raw / 0x1_0000_0000 + if low < 0x8000_0000 then 0 else 1) * 0x1_0000_0000;
    pid
  }

  /** `Instant::elapsed`, which saturates at zero. */
  function Elapsed(start: nat, now: nat): (d: nat)
    ensures start <= now ==> start + d == now
    ensures now < start ==> d == 0
  {
    if start <= now then now - start else 0
  }

  /** The entry of `pid`, or the one `or_insert_with(Tracee::new_child)` would add. */
  function View(tracees: Tracees, pid: Pid): Tracee {
    if pid in tracees then tracees[pid] else NewChild()
  }

  // --------------------------------------------- specification of one step

  function Resuming(tracees: Tracees, emitted: seq<SyscallEvent>, pid: Pid, sig: Option<Signal>, reply: Reply): Outcome {
    match reply.resume
    case Ok(_) => Outcome(tracees, emitted, [Resume(pid, sig)], Ok(()))
    case Err(e) => Outcome(tracees, emitted, [], Err(Ptrace(e)))
  }

  function Failing(tracees: Tracees, e: Errno): Outcome { Outcome(tracees, [], [], Err(Ptrace(e))) }

  function StepSyscall(cfg: Config, tracees: Tracees, pid: Pid, reply: Reply): Outcome {
    var t := View(tracees, pid);
    if t.skipNextSyscallStop then
      Resuming(tracees[pid := t.(skipNextSyscallStop := false)], [], pid, None, reply)
    else if reply.regs.Err? then
      Failing(tracees[pid := t], reply.regs.error)
    else
      var regs := reply.regs.value;
      match t.phase
      case Entry =>
        Resuming(tracees[pid := t.(phase := Exit(regs.nr, regs.args, reply.now))], [], pid, None, reply)
      case Exit(nr, args, startedAt) =>
        var event := SyscallEvent(pid, nr, args, regs.ret, Elapsed(startedAt, reply.now));
        Resuming(tracees[pid := t.(phase := Entry)],
                 if pid == cfg.rootPid || cfg.followForks then [event] else [],
                 pid, None, reply)
  }

  function StepEvent(tracees: Tracees, pid: Pid, evt: int, reply: Reply): Outcome {
    if IsForkEvent(evt) then
      match reply.message {
        case Err(e) => Failing(tracees, e)
        case Ok(raw) =>
          var child := ChildPidFromEvent(raw);
          Resuming(tracees[child := View(tracees, child)], [], pid, None, reply)
      }
    else if evt == EVENT_EXEC && pid in tracees then
      Resuming(tracees[pid := tracees[pid].(phase := Entry, skipNextSyscallStop := true)], [], pid, None, reply)
    else
      Resuming(tracees, [], pid, None, reply)
  }

  function StepSignal(tracees: Tracees, pid: Pid, sig: Signal, reply: Reply): Outcome {
    var t := View(tracees, pid);
    if t.awaitingInitialSigstop && sig == SIGSTOP then
      Resuming(tracees[pid := t.(awaitingInitialSigstop := false)], [], pid, None, reply)
    else
      Resuming(tracees[pid := t], [], pid, Some(sig), reply)
  }

  function Step(cfg: Config, tracees: Tracees, status: WaitStatus, reply: Reply): Outcome {
    match status
    case PtraceSyscall(pid) => StepSyscall(cfg, tracees, pid, reply)
    case PtraceEvent(pid, evt) => StepEvent(tracees, pid, evt, reply)
    case Stopped(pid, sig) => StepSignal(tracees, pid, sig, reply)
    case Exited(pid, _) => Outcome(tracees - {pid}, [], [], Ok(()))
    case Signaled(pid, _) => Outcome(tracees - {pid}, [], [], Ok(()))
    case Continued(_) => Outcome(tracees, [], [], Ok(()))
    case StillAlive => Outcome(tracees, [], [], Ok(()))
  }

  // --------------------------------------------- specification of the loop

  datatype WaitReply = Status(status: WaitStatus, reply: Reply) | WaitFailed(errno: Errno)

  /** The loop's state; `finished` is None while it is (or would be) in waitpid. */
  datatype RunState = RunState(
    tracees: Tracees,
    events: seq<SyscallEvent>,
    resumes: seq<Resume>,
    finished: Option<Result<(), Error>>
  )

  /** The test at the head of the `while` loop. */
  function AtLoopHead(r: RunState): RunState {
    if r.finished.None? && r.tracees == map[] then r.(finished := Some(Ok(()))) else r
  }

  function Started(cfg: Config, tracees: Tracees, first: Result<(), Errno>): RunState {
    match first
    case Err(e) => RunState(tracees, [], [], Some(Err(Ptrace(e))))
    case Ok(_) => AtLoopHead(RunState(tracees, [], [Resume(cfg.rootPid, None)], None))
  }

  /** `self.handle_status(status, &mut sink)?`, then the loop's test. */
  function Applied(r: RunState, o: Outcome): RunState {
    AtLoopHead(RunState(o.tracees, r.events + o.emitted, r.resumes + o.resumed,
                        if o.result.Err? then Some(Err(o.result.error)) else None))
  }

  function LoopStep(cfg: Config, r: RunState, wait: WaitReply): RunState {
    if r.finished.Some? then r
    else
      match wait
      case WaitFailed(e) =>
        if e == ECHILD then
          r.(finished := Some(if cfg.rootPid in r.tracees then Err(TraceeGone) else Ok(())))
        else if e == EINTR then r
        else r.(finished := Some(Err(Ptrace(e))))
      case Status(status, reply) =>
        Applied(r, Step(cfg, r.tracees, status, reply))
  }

  /** The loop after the replies `script`, the n-th one answering the n-th waitpid. */
  function RunOn(cfg: Config, tracees: Tracees, first: Result<(), Errno>, script: seq<WaitReply>): RunState {
    if |script| == 0 then Started(cfg, tracees, first)
    else LoopStep(cfg, RunOn(cfg, tracees, first, script[..|script| - 1]), script[|script| - 1])
  }

  // ------------------------------------------------------------ tracer.rs

  class Tracer {
    const rootPid: Pid
    var tracees: Tracees
    var followForks: bool
    /** Everything the sink has been called with. */
    var events: seq<SyscallEvent>
    /** Every resume the kernel accepted. */
    var resumes: seq<Resume>

    /** The tracer `finish_parent` builds around a root stopped after `execve`. */
    constructor (root: Pid)
      ensures rootPid == root && tracees == map[root := NewRoot()] && !followForks
      ensures events == [] && resumes == []
    {
      rootPid := root;
      tracees := map[root := NewRoot()];
      followForks := false;
      events, resumes := [], [];
    }

    function Cfg(): Config
      reads this
    { Config(rootPid, followForks) }

    method WithFollowForks(on: bool)
      modifies this`followForks
      ensures followForks == on
    { followForks := on; }

    /** `ptrace::syscall(pid, sig)`. */
    method PtraceSyscallCall(pid: Pid, sig: Option<Signal>, answer: Result<(), Errno>) returns (r: Result<(), Error>)
      modifies this`resumes
      ensures answer.Ok? ==> r == Ok(()) && resumes == old(resumes) + [Resume(pid, sig)]
      ensures answer.Err? ==> r == Err(Ptrace(answer.error)) && resumes == old(resumes)
    {
      match answer
      case Ok(_) =>
        resumes := resumes + [Resume(pid, sig)];
        return Ok(());
      case Err(e) =>
        return Err(Ptrace(e));
    }

    /** This object's state is `o` applied to the state it had before. */
    twostate predicate Did(o: Outcome, new r: Result<(), Error>)
      reads this
    {
      && tracees == o.tracees
      && events == old(events) + o.emitted
      && resumes == old(resumes) + o.resumed
      && r == o.result
    }

    /** `self.tracees.entry(pid).or_insert_with(Tracee::new_child)`. */
    method EntryOrNewChild(pid: Pid)
      modifies this`tracees
      ensures tracees == old(tracees)[pid := View(old(tracees), pid)]
    {
      if pid !in tracees {
        tracees := tracees[pid := NewChild()];
      }
    }

    method HandleStatus(status: WaitStatus, reply: Reply) returns (r: Result<(), Error>)
      modifies this`tracees, this`events, this`resumes
      ensures Did(Step(Cfg(), old(tracees), status, reply), r)
    {
      match status
      case PtraceSyscall(pid) => r := HandleSyscallStop(pid, reply);
      case PtraceEvent(pid, evt) => r := HandleEvent(pid, evt, reply);
      case Stopped(pid, sig) => r := HandleSignal(pid, sig, reply);
      case Exited(pid, _) => tracees := tracees - {pid}; r := Ok(());
      case Signaled(pid, _) => tracees := tracees - {pid}; r := Ok(());
      case Continued(_) => r := Ok(());
      case StillAlive => r := Ok(());
    }

    method HandleSyscallStop(pid: Pid, reply: Reply) returns (r: Result<(), Error>)
      modifies this`tracees, this`events, this`resumes
      ensures Did(StepSyscall(Cfg(), old(tracees), pid, reply), r)
    {
      EntryOrNewChild(pid);
      var tracee := tracees[pid];
      if tracee.skipNextSyscallStop {
        tracees := tracees[pid := tracee.(skipNextSyscallStop := false)];
        r := PtraceSyscallCall(pid, None, reply.resume);
        return;
      }
      match tracee.phase {
        case Entry =>
          if reply.regs.Err? { return Err(Ptrace(reply.regs.error)); }
          var regs := reply.regs.value;
          tracees := tracees[pid := tracee.(phase := Exit(regs.nr, regs.args, reply.now))];
        case Exit(nr, args, startedAt) =>
          if reply.regs.Err? { return Err(Ptrace(reply.regs.error)); }
          var ret := reply.regs.value.ret;
          var duration := Elapsed(startedAt, reply.now);
          tracees := tracees[pid := tracee.(phase := Entry)];
          if pid == rootPid || followForks {
            events := events + [SyscallEvent(pid, nr, args, ret, duration)];
          }
      }
      r := PtraceSyscallCall(pid, None, reply.resume);
    }

    method HandleEvent(pid: Pid, evt: int, reply: Reply) returns (r: Result<(), Error>)
      modifies this`tracees, this`resumes
      ensures Did(StepEvent(old(tracees), pid, evt, reply), r)
    {
      if IsForkEvent(evt) {
        if reply.message.Err? { return Err(Ptrace(reply.message.error)); }
        EntryOrNewChild(ChildPidFromEvent(reply.message.value));
      } else if evt == EVENT_EXEC {
        if pid in tracees {
          tracees := tracees[pid := tracees[pid].(phase := Entry)];
          tracees := tracees[pid := tracees[pid].(skipNextSyscallStop := true)];
        }
      }
      r := PtraceSyscallCall(pid, None, reply.resume);
    }

    method HandleSignal(pid: Pid, sig: Signal, reply: Reply) returns (r: Result<(), Error>)
      modifies this`tracees, this`resumes
      ensures Did(StepSignal(old(tracees), pid, sig, reply), r)
    {
      EntryOrNewChild(pid);
      var tracee := tracees[pid];
      var inject := Some(sig);
      if tracee.awaitingInitialSigstop && sig == SIGSTOP {
        tracees := tracees[pid := tracee.(awaitingInitialSigstop := false)];
        inject := None;
      }
      r := PtraceSyscallCall(pid, inject, reply.resume);
    }

    /**
     The wait loop, on the replies waitpid and ptrace give. `finished` is None when the
     replies run out first: the real loop is then blocked in waitpid.
     */
    method Run(first: Result<(), Errno>, script: seq<WaitReply>) returns (finished: Option<Result<(), Error>>)
      requires events == [] && resumes == []
      modifies this`tracees, this`events, this`resumes
      ensures RunState(tracees, events, resumes, finished) == RunOn(Cfg(), old(tracees), first, script)
    {
      ghost var start := tracees;
      var r := PtraceSyscallCall(rootPid, None, first);
      if r.Err? {
        NothingAfterFinish(Cfg(), start, first, script, 0);
        return Some(Err(r.error));
      }
      var i := 0;
      while tracees != map[]
        invariant 0 <= i <= |script|
        invariant followForks == old(followForks)
        invariant AtLoopHead(RunState(tracees, events, resumes, None)) == RunOn(Cfg(), start, first, script[..i])
        decreases |script| - i
      {
        if i == |script| {
          assert script[..i] == script;
          return None;
        }
        var wait := script[i];
        assert script[..i + 1][..i] == script[..i];
        i := i + 1;
        match wait {
          case WaitFailed(e) =>
            if e == ECHILD {
              NothingAfterFinish(Cfg(), start, first, script, i);
              return Some(if rootPid in tracees then Err(TraceeGone) else Ok(()));
            } else if e != EINTR {
              NothingAfterFinish(Cfg(), start, first, script, i);
              return Some(Err(Ptrace(e)));
            }
          case Status(status, reply) =>
            var res := HandleStatus(status, reply);
            if res.Err? {
              NothingAfterFinish(Cfg(), start, first, script, i);
              return Some(Err(res.error));
            }
        }
      }
      NothingAfterFinish(Cfg(), start, first, script, i);
      return Some(Ok(()));
    }
  }

  /** Once the loop has returned, later replies are never asked for. */
  lemma {:induction false} NothingAfterFinish(cfg: Config, tracees: Tracees, first: Result<(), Errno>, script: seq<WaitReply>, i: nat)
    requires i <= |script|
    requires RunOn(cfg, tracees, first, script[..i]).finished.Some?
    ensures RunOn(cfg, tracees, first, script) == RunOn(cfg, tracees, first, script[..i])
    decreases |script| - i
  {
    if i == |script| {
      assert script[..i] == script;
    } else {
      assert script[..i + 1][..i] == script[..i];
      NothingAfterFinish(cfg, tracees, first, script, i + 1);
    }
  }
}
