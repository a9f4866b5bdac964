/**
 What the handlers of tracer.rs achieve over every stream of wait statuses, whatever
 produced it and however the stops of different processes are interleaved in it.
 */
module TracerStreams {
  import opened Prelude
  import opened TracerModel
  import Linux

  /** One wait status together with the answers given while it is handled. */
  datatype Stop = Stop(status: WaitStatus, reply: Reply)

  function Then(before: Outcome, o: Outcome): Outcome {
    Outcome(o.tracees, before.emitted + o.emitted, before.resumed + o.resumed, o.result)
  }

  function StepOn(cfg: Config, tracees: Tracees, stop: Stop): Outcome {
    Step(cfg, tracees, stop.status, stop.reply)
  }

  /** All handlers in order; `result` is that of the last one. */
  function Fold(cfg: Config, tracees: Tracees, stream: seq<Stop>): Outcome {
    if |stream| == 0 then Outcome(tracees, [], [], Ok(()))
    else
      var before := Fold(cfg, tracees, stream[..|stream| - 1]);
      Then(before, StepOn(cfg, before.tracees, stream[|stream| - 1]))
  }

  /** The statuses among the replies of a loop. */
  function Statuses(script: seq<WaitReply>): seq<Stop> {
    if |script| == 0 then []
    else
      var before := Statuses(script[..|script| - 1]);
      match script[|script| - 1]
      case Status(status, reply) => before + [Stop(status, reply)]
      case WaitFailed(_) => before
  }

  /** While the loop has not returned it has handled every status it was given, in order. */
  lemma {:induction false} RunIsFold(cfg: Config, tracees: Tracees, script: seq<WaitReply>)
    requires RunOn(cfg, tracees, Ok(()), script).finished.None?
    ensures Kept(cfg, RunOn(cfg, tracees, Ok(()), script), Fold(cfg, tracees, Statuses(script)))
  {
    if |script| > 0 {
      var before := script[..|script| - 1];
      var r := RunOn(cfg, tracees, Ok(()), before);
      assert r.finished.None?;
      RunIsFold(cfg, tracees, before);
      match script[|script| - 1]
      case WaitFailed(_) =>
      case Status(status, reply) =>
        var stops := Statuses(script);
        assert stops[..|stops| - 1] == Statuses(before);
        AppliedIsThen(cfg, r, Fold(cfg, tracees, Statuses(before)), StepOn(cfg, r.tracees, Stop(status, reply)));
    }
  }

  ghost predicate Kept(cfg: Config, r: RunState, o: Outcome) {
    r.tracees == o.tracees && r.events == o.emitted && r.resumes == [Resume(cfg.rootPid, None)] + o.resumed
  }

  lemma AppliedIsThen(cfg: Config, r: RunState, before: Outcome, o: Outcome)
    requires Kept(cfg, r, before)
    ensures Kept(cfg, Applied(r, o), Then(before, o))
  {
  }

  /** The loop begins with one resume of the root, and goes no further when that fails. */
  lemma RunBegins(cfg: Config, tracees: Tracees, first: Result<(), Errno>)
    ensures var r := RunOn(cfg, tracees, first, []);
            && r.tracees == tracees && r.events == []
            && r.resumes == (if first.Ok? then [Resume(cfg.rootPid, None)] else [])
            && r.finished == (if first.Err? then Some(Err(Ptrace(first.error)))
                              else if tracees == map[] then Some(Ok(())) else None)
  {
  }

  /**
   A waitpid that reports nothing: an interrupted one is repeated, one without children ends the loop well exactly when
   the root is no longer expected, any other ends it with its errno. Nothing else changes.
   */
  lemma WaitFailureResult(cfg: Config, r: RunState, e: Errno)
    requires r.finished.None?
    ensures var t := LoopStep(cfg, r, WaitFailed(e));
            && t.tracees == r.tracees && t.events == r.events && t.resumes == r.resumes
            && t.finished == (if e == Linux.EINTR then None
                              else if e != Linux.ECHILD then Some(Err(Ptrace(e)))
                              else if cfg.rootPid in r.tracees then Some(Err(TraceeGone))
                              else Some(Ok(())))
  {
  }

  /** After a handled status the loop ends exactly when the handler failed or nothing is left to trace. */
  lemma HandlerResult(cfg: Config, r: RunState, status: WaitStatus, reply: Reply)
    requires r.finished.None?
    ensures var t, o := LoopStep(cfg, r, Status(status, reply)), Step(cfg, r.tracees, status, reply);
            && t.tracees == o.tracees
            && t.finished == (if o.result.Err? then Some(Err(o.result.error))
                              else if o.tracees == map[] then Some(Ok(())) else None)
  {
  }

  /**
   A stop with an event, answered with a process id and resumed: the pids that come into the map are that process, if
   the event is a fork, a vfork or a clone, and no other.
   */
  lemma EventRegisters(cfg: Config, tracees: Tracees, pid: Pid, evt: int, reply: Reply, child: Pid, q: Pid)
    requires reply.message == Ok(child) && -0x8000_0000 <= child < 0x8000_0000 && reply.resume.Ok?
    ensures var o := Step(cfg, tracees, PtraceEvent(pid, evt), reply);
            && o.result == Ok(())
            && (q !in tracees ==> (q in o.tracees <==> q == child && (evt == 1 || evt == 2 || evt == 3)))
            && (q !in tracees && q in o.tracees ==> o.tracees[q] == NewChild())
            && (q in tracees ==> q in o.tracees)
  {
  }

  /** A syscall or signal stop brings in its own process, if it is new, and no other. */
  lemma StopRegisters(cfg: Config, tracees: Tracees, pid: Pid, sig: Signal, reply: Reply, q: Pid)
    ensures (q in Step(cfg, tracees, PtraceSyscall(pid), reply).tracees <==> q in tracees || q == pid)
    ensures (q in Step(cfg, tracees, Stopped(pid, sig), reply).tracees <==> q in tracees || q == pid)
  {
  }

  // ------------------------------------------------------- follow_forks

  function EventsOf(events: seq<SyscallEvent>, p: Pid): seq<SyscallEvent> {
    if |events| == 0 then []
    else
      var before := EventsOf(events[..|events| - 1], p);
      if events[|events| - 1].pid == p then before + [events[|events| - 1]] else before
  }

  lemma {:induction false} EventsOfConcat(a: seq<SyscallEvent>, b: seq<SyscallEvent>, p: Pid)
    ensures EventsOf(a + b, p) == EventsOf(a, p) + EventsOf(b, p)
  {
    if |b| == 0 {
      assert a + b == a;
    } else {
      assert (a + b)[..|a + b| - 1] == a + b[..|b| - 1];
      EventsOfConcat(a, b[..|b| - 1], p);
    }
  }

  lemma StepFollowForks(root: Pid, tracees: Tracees, stop: Stop)
    ensures var off := Step(Config(root, false), tracees, stop.status, stop.reply);
            var on := Step(Config(root, true), tracees, stop.status, stop.reply);
            off.tracees == on.tracees && off.resumed == on.resumed && off.result == on.result &&
            off.emitted == EventsOf(on.emitted, root)
  {
    var on := Step(Config(root, true), tracees, stop.status, stop.reply);
    Singletons(if on.emitted == [] then SyscallEvent(0, 0, [], 0, 0) else on.emitted[0], Resume(0, None), root);
  }

  /**
   The flag only filters: on the same statuses, with it off and on, the maps, the resumes
   and the results agree at every step, and the events with it off are those of the root
   among the events with it on.
   */
  lemma {:induction false} FollowForksOnlyFilters(root: Pid, tracees: Tracees, stream: seq<Stop>, n: nat)
    requires n <= |stream|
    ensures var off := Fold(Config(root, false), tracees, stream[..n]);
            var on := Fold(Config(root, true), tracees, stream[..n]);
            && off.tracees == on.tracees
            && off.resumed == on.resumed
            && off.result == on.result
            && off.emitted == EventsOf(on.emitted, root)
  {
    if n > 0 {
      FollowForksOnlyFilters(root, tracees, stream, n - 1);
      var before := Fold(Config(root, true), tracees, stream[..n - 1]);
      assert stream[..n][..n - 1] == stream[..n - 1];
      StepFollowForks(root, before.tracees, stream[n - 1]);
      EventsOfConcat(before.emitted, Step(Config(root, true), before.tracees, stream[n - 1].status, stream[n - 1].reply).emitted, root);
    }
  }

  // ----------------------------------------------- projection to one pid

  predicate Concerns(status: WaitStatus, p: Pid) {
    match status
    case PtraceSyscall(pid) => pid == p
    case PtraceEvent(pid, _) => pid == p
    case Stopped(pid, _) => pid == p
    case Exited(pid, _) => pid == p
    case Signaled(pid, _) => pid == p
    case Continued(_) => false
    case StillAlive => false
  }

  predicate IsExec(status: WaitStatus) { status.PtraceEvent? && status.evt == Linux.EXEC_EVENT }

  function OwnHistory(stream: seq<Stop>, p: Pid): seq<Stop> {
    if |stream| == 0 then []
    else
      var before := OwnHistory(stream[..|stream| - 1], p);
      if Concerns(stream[|stream| - 1].status, p) then before + [stream[|stream| - 1]] else before
  }

  function ResumesOf(resumes: seq<Resume>, p: Pid): seq<Option<Signal>> {
    if |resumes| == 0 then []
    else
      var before := ResumesOf(resumes[..|resumes| - 1], p);
      if resumes[|resumes| - 1].pid == p then before + [resumes[|resumes| - 1].sig] else before
  }

  lemma {:induction false} ResumesOfConcat(a: seq<Resume>, b: seq<Resume>, p: Pid)
    ensures ResumesOf(a + b, p) == ResumesOf(a, p) + ResumesOf(b, p)
  {
    if |b| == 0 {
      assert a + b == a;
    } else {
      assert (a + b)[..|a + b| - 1] == a + b[..|b| - 1];
      ResumesOfConcat(a, b[..|b| - 1], p);
    }
  }

  /** A machine for one process alone: it sees no pid and keeps no map. */
  datatype Own = Own(tracee: Tracee, calls: seq<Call>, resumed: seq<Option<Signal>>)

  datatype Call = Call(nr: u64, args: seq<u64>, ret: int, duration: nat)

  function Accepted(reply: Reply, sig: Option<Signal>): seq<Option<Signal>> {
    if reply.resume.Ok? then [sig] else []
  }

  /** The new state of the process's entry, and what this one stop adds to its calls and resumes. */
  function OwnStep(t: Tracee, stop: Stop): Own {
    match stop.status
    case PtraceSyscall(_) =>
      if t.skipNextSyscallStop then Own(t.(skipNextSyscallStop := false), [], Accepted(stop.reply, None))
      else if stop.reply.regs.Err? then Own(t, [], [])
      else if t.phase.Entry? then
        Own(t.(phase := Exit(stop.reply.regs.value.nr, stop.reply.regs.value.args, stop.reply.now)), [], Accepted(stop.reply, None))
      else
        var call := Call(t.phase.nr, t.phase.args, stop.reply.regs.value.ret, Elapsed(t.phase.startedAt, stop.reply.now));
        Own(t.(phase := Entry), [call], Accepted(stop.reply, None))
    case PtraceEvent(_, evt) =>
      if Linux.CarriesChild(evt) && stop.reply.message.Err? then Own(t, [], [])
      else if evt == Linux.EXEC_EVENT then Own(t.(phase := Entry, skipNextSyscallStop := true), [], Accepted(stop.reply, None))
      else Own(t, [], Accepted(stop.reply, None))
    case Stopped(_, sig) =>
      if t.awaitingInitialSigstop && sig == Linux.SIGSTOP then Own(t.(awaitingInitialSigstop := false), [], Accepted(stop.reply, None))
      else Own(t, [], Accepted(stop.reply, Some(sig)))
    case Exited(_, _) => Own(NewChild(), [], [])
    case Signaled(_, _) => Own(NewChild(), [], [])
    case _ => Own(t, [], [])
  }

  function OwnRun(start: Tracee, history: seq<Stop>): Own {
    if |history| == 0 then Own(start, [], [])
    else
      var before := OwnRun(start, history[..|history| - 1]);
      var step := OwnStep(before.tracee, history[|history| - 1]);
      Own(step.tracee, before.calls + step.calls, before.resumed + step.resumed)
  }

  function Attributed(p: Pid, calls: seq<Call>): (events: seq<SyscallEvent>)
    ensures |events| == |calls|
  {
    seq(|calls|, i requires 0 <= i < |calls| =>
      SyscallEvent(p, calls[i].nr, calls[i].args, calls[i].ret, calls[i].duration))
  }

  predicate IsExecOf(status: WaitStatus, p: Pid) { IsExec(status) && status.pid == p }

  /** Process `p` is in the map whenever an exec stop of its own is handled. */
  ghost predicate ExecsRegistered(cfg: Config, tracees: Tracees, stream: seq<Stop>, p: Pid) {
    forall i :: 0 <= i < |stream| && IsExecOf(stream[i].status, p) ==> p in Fold(cfg, tracees, stream[..i]).tracees
  }

  lemma ExecsRegisteredPrefix(cfg: Config, tracees: Tracees, stream: seq<Stop>, p: Pid, n: nat)
    requires n <= |stream| && ExecsRegistered(cfg, tracees, stream, p)
    ensures ExecsRegistered(cfg, tracees, stream[..n], p)
  {
    forall i | 0 <= i < n && IsExecOf(stream[..n][i].status, p)
      ensures p in Fold(cfg, tracees, stream[..n][..i]).tracees
    {
      assert stream[..n][..i] == stream[..i];
      assert stream[..n][i] == stream[i];
    }
  }

  lemma Singletons(e: SyscallEvent, r: Resume, p: Pid)
    ensures EventsOf([], p) == [] && ResumesOf([], p) == []
    ensures EventsOf([e], p) == if e.pid == p then [e] else []
    ensures ResumesOf([r], p) == if r.pid == p then [r.sig] else []
  {
    assert [e][..0] == [] && [r][..0] == [];
  }

  /** From `p`'s side, the map-based outcome `o` is the own outcome `own`. */
  ghost predicate StepsAlike(cfg: Config, o: Outcome, own: Own, p: Pid) {
    && View(o.tracees, p) == own.tracee
    && EventsOf(o.emitted, p) == (if p == cfg.rootPid || cfg.followForks then Attributed(p, own.calls) else [])
    && ResumesOf(o.resumed, p) == own.resumed
  }

  /** Handling `stop` looks, from `p`, like the step of `p` on its own, or like nothing when it is another's stop. */
  ghost predicate StepAgrees(cfg: Config, tracees: Tracees, stop: Stop, p: Pid) {
    StepsAlike(cfg, Step(cfg, tracees, stop.status, stop.reply),
               if Concerns(stop.status, p) then OwnStep(View(tracees, p), stop) else Own(View(tracees, p), [], []), p)
  }

  /** What a syscall stop adds, for its own process. */
  lemma OwnSyscall(cfg: Config, tracees: Tracees, pid: Pid, reply: Reply)
    ensures var o, own := StepSyscall(cfg, tracees, pid, reply), OwnStep(View(tracees, pid), Stop(PtraceSyscall(pid), reply));
            && View(o.tracees, pid) == own.tracee
            && o.emitted == (if pid == cfg.rootPid || cfg.followForks then Attributed(pid, own.calls) else [])
            && o.resumed == (if own.resumed == [] then [] else [Resume(pid, None)])
            && (own.resumed == [] || own.resumed == [None])
  {
  }

  lemma OtherSyscall(cfg: Config, tracees: Tracees, pid: Pid, reply: Reply, p: Pid)
    requires p != pid
    ensures var o := StepSyscall(cfg, tracees, pid, reply);
            && View(o.tracees, p) == View(tracees, p)
            && (forall e :: e in o.emitted ==> e.pid == pid) && |o.emitted| <= 1
            && (o.resumed == [] || o.resumed == [Resume(pid, None)])
  {
  }

  lemma SyscallProjects(cfg: Config, tracees: Tracees, pid: Pid, reply: Reply, p: Pid)
    ensures StepAgrees(cfg, tracees, Stop(PtraceSyscall(pid), reply), p)
  {
    hide StepSyscall, OwnStep;
    var o := StepSyscall(cfg, tracees, pid, reply);
    Singletons(if |o.emitted| != 1 then SyscallEvent(0, 0, [], 0, 0) else o.emitted[0], Resume(pid, None), p);
    if p == pid {
      OwnSyscall(cfg, tracees, pid, reply);
      var calls := OwnStep(View(tracees, pid), Stop(PtraceSyscall(pid), reply)).calls;
      assert |calls| <= 1 by { AtMostOneCall(View(tracees, pid), Stop(PtraceSyscall(pid), reply)); }
      assert |o.emitted| == 1 ==> o.emitted == [o.emitted[0]];
    } else {
      OtherSyscall(cfg, tracees, pid, reply, p);
      assert |o.emitted| == 1 ==> o.emitted == [o.emitted[0]] && o.emitted[0] in o.emitted;
    }
  }

  lemma AtMostOneCall(t: Tracee, stop: Stop)
    ensures |OwnStep(t, stop).calls| <= 1
  {
  }

  lemma EventProjects(cfg: Config, tracees: Tracees, pid: Pid, evt: int, reply: Reply, p: Pid)
    ensures StepAgrees(cfg, tracees, Stop(PtraceEvent(pid, evt), reply), p) <==> !(evt == Linux.EXEC_EVENT && pid == p && p !in tracees)
  {
    var o := StepEvent(tracees, pid, evt, reply);
    Singletons(SyscallEvent(0, 0, [], 0, 0), if o.resumed == [] then Resume(0, None) else o.resumed[0], p);
  }

  lemma SignalProjects(cfg: Config, tracees: Tracees, pid: Pid, sig: Signal, reply: Reply, p: Pid)
    ensures StepAgrees(cfg, tracees, Stop(Stopped(pid, sig), reply), p)
  {
    var o := StepSignal(tracees, pid, sig, reply);
    Singletons(SyscallEvent(0, 0, [], 0, 0), if o.resumed == [] then Resume(0, None) else o.resumed[0], p);
  }

  /**
   One step of the map-based machine, seen from one pid, is that process's own step,
   except when an exec stop is dropped because the process is not in the map.
   */
  lemma StepProjects(cfg: Config, tracees: Tracees, stop: Stop, p: Pid)
    ensures StepAgrees(cfg, tracees, stop, p) <==> !(IsExecOf(stop.status, p) && p !in tracees)
  {
    match stop.status
    case PtraceSyscall(pid) => SyscallProjects(cfg, tracees, pid, stop.reply, p);
    case PtraceEvent(pid, evt) => EventProjects(cfg, tracees, pid, evt, stop.reply, p);
    case Stopped(pid, sig) => SignalProjects(cfg, tracees, pid, sig, stop.reply, p);
    case _ =>
  }

  lemma ThenAlike(cfg: Config, before: Outcome, o: Outcome, own: Own, step: Own, p: Pid)
    requires StepsAlike(cfg, before, own, p) && StepsAlike(cfg, o, step, p)
    ensures StepsAlike(cfg, Then(before, o), Own(step.tracee, own.calls + step.calls, own.resumed + step.resumed), p)
  {
    EventsOfConcat(before.emitted, o.emitted, p);
    ResumesOfConcat(before.resumed, o.resumed, p);
    AttributedConcat(p, own.calls, step.calls);
  }

  lemma AttributedConcat(p: Pid, a: seq<Call>, b: seq<Call>)
    ensures Attributed(p, a + b) == Attributed(p, a) + Attributed(p, b)
  {
  }

  /**
   The map-based machine refines independent per-process machines: for every interleaving,
   what is kept, emitted and resumed for a pid depends on that pid's own stops alone.
   */
  lemma {:induction false} Projection(cfg: Config, tracees: Tracees, stream: seq<Stop>, p: Pid)
    requires ExecsRegistered(cfg, tracees, stream, p)
    ensures StepsAlike(cfg, Fold(cfg, tracees, stream), OwnRun(View(tracees, p), OwnHistory(stream, p)), p)
  {
    if |stream| > 0 {
      var n := |stream| - 1;
      ExecsRegisteredPrefix(cfg, tracees, stream, p, n);
      Projection(cfg, tracees, stream[..n], p);
      var before := Fold(cfg, tracees, stream[..n]);
      var own := OwnRun(View(tracees, p), OwnHistory(stream[..n], p));
      StepProjects(cfg, before.tracees, stream[n], p);
      var step := if Concerns(stream[n].status, p) then OwnStep(own.tracee, stream[n]) else Own(own.tracee, [], []);
      ThenAlike(cfg, before, StepOn(cfg, before.tracees, stream[n]), own, step, p);
      if Concerns(stream[n].status, p) {
        var history := OwnHistory(stream, p);
        assert history[..|history| - 1] == OwnHistory(stream[..n], p);
      }
    }
  }

  ghost predicate AlikeAt(cfg: Config, tracees: Tracees, stream: seq<Stop>, p: Pid, n: nat)
    requires n <= |stream|
  {
    StepsAlike(cfg, Fold(cfg, tracees, stream[..n]), OwnRun(View(tracees, p), OwnHistory(stream[..n], p)), p)
  }

  lemma ExecDropped(cfg: Config, tracees: Tracees, stop: Stop, p: Pid)
    requires IsExecOf(stop.status, p) && p !in tracees
    ensures !View(StepOn(cfg, tracees, stop).tracees, p).skipNextSyscallStop
  {
  }

  lemma ExecSkips(t: Tracee, stop: Stop)
    requires IsExec(stop.status)
    ensures OwnStep(t, stop).tracee.skipNextSyscallStop
  {
  }

  lemma OwnHistoryEndsIn(stream: seq<Stop>, p: Pid)
    requires |stream| > 0 && Concerns(stream[|stream| - 1].status, p)
    ensures OwnHistory(stream, p) == OwnHistory(stream[..|stream| - 1], p) + [stream[|stream| - 1]]
  {
  }

  lemma OwnRunSnoc(start: Tracee, history: seq<Stop>, stop: Stop)
    ensures OwnRun(start, history + [stop]).tracee == OwnStep(OwnRun(start, history).tracee, stop).tracee
  {
    assert (history + [stop])[..|history|] == history;
  }

  /** An exec stop of a pid that is not in the map sets the two machines apart, whatever came before. */
  lemma DroppedExecDiffers(cfg: Config, tracees: Tracees, stream: seq<Stop>, p: Pid, n: nat)
    requires n < |stream| && IsExecOf(stream[n].status, p) && p !in Fold(cfg, tracees, stream[..n]).tracees
    ensures !AlikeAt(cfg, tracees, stream, p, n + 1)
  {
    hide OwnStep, OwnRun, OwnHistory, StepOn;
    var longer, before := stream[..n + 1], OwnHistory(stream[..n], p);
    assert longer[..n] == stream[..n];
    OwnHistoryEndsIn(longer, p);
    OwnRunSnoc(View(tracees, p), before, stream[n]);
    ExecSkips(OwnRun(View(tracees, p), before).tracee, stream[n]);
    ExecDropped(cfg, Fold(cfg, tracees, stream[..n]).tracees, stream[n], p);
  }

  /** The refinement holds all along a stream exactly when every exec stop of the process finds it in the map. */
  lemma ProjectionExactly(cfg: Config, tracees: Tracees, stream: seq<Stop>, p: Pid)
    ensures (forall n :: 0 <= n <= |stream| ==> AlikeAt(cfg, tracees, stream, p, n))
       <==> ExecsRegistered(cfg, tracees, stream, p)
  {
    hide StepsAlike, Fold;
    if ExecsRegistered(cfg, tracees, stream, p) {
      forall n | 0 <= n <= |stream| ensures AlikeAt(cfg, tracees, stream, p, n) {
        ExecsRegisteredPrefix(cfg, tracees, stream, p, n);
        Projection(cfg, tracees, stream[..n], p);
      }
    } else {
      var n :| 0 <= n < |stream| && IsExecOf(stream[n].status, p) && p !in Fold(cfg, tracees, stream[..n]).tracees;
      DroppedExecDiffers(cfg, tracees, stream, p, n);
    }
  }

  /**
   The condition is needed: an exec stop of a pid that is not in the map is dropped, so the
   same own history gives other events when a fork event of another process came first.
   */
  lemma ProjectionNeedsRegisteredExec()
    ensures exists cfg, tracees: Tracees, stream, p ::
              EventsOf(Fold(cfg, tracees, stream).emitted, p)
                != Attributed(p, OwnRun(View(tracees, p), OwnHistory(stream, p)).calls)
              && p == cfg.rootPid
  {
    var cfg := Config(7, true);
    var reply := Reply(Ok(Regs(1, [], 5)), Ok(0), Ok(()), 0);
    var exec, sys := Stop(PtraceEvent(7, Linux.EXEC_EVENT), reply), Stop(PtraceSyscall(7), reply);
    var none, one, two, three := [], [exec], [exec, sys], [exec, sys, sys];
    assert one[..0] == none && two[..1] == one && three[..2] == two;
    assert Fold(cfg, map[], none) == Outcome(map[], [], [], Ok(()));
    assert Fold(cfg, map[], one).tracees == map[];
    assert Fold(cfg, map[], two).tracees[7].phase.Exit?;
    var event := SyscallEvent(7, 1, [], 5, 0);
    assert Fold(cfg, map[], three).emitted == [event];
    Singletons(event, Resume(0, None), 7);
    assert OwnHistory(none, 7) == none && OwnHistory(one, 7) == one && OwnHistory(two, 7) == two && OwnHistory(three, 7) == three;
    assert OwnRun(NewChild(), none) == Own(NewChild(), [], []);
    assert OwnRun(NewChild(), one).tracee == Tracee(Entry, true, true);
    assert OwnRun(NewChild(), two).tracee == Tracee(Entry, true, false);
    assert OwnRun(View(map[], 7), OwnHistory(three, 7)).calls == [];
  }

  // ------------------------------------------------- the calls of one pid

  predicate IsSyscall(status: WaitStatus) { status.PtraceSyscall? }

  /** The stops that bear on pairing: syscall stops and exec stops. */
  function Marks(history: seq<Stop>): seq<Stop> {
    if |history| == 0 then []
    else
      var last := history[|history| - 1];
      var before := Marks(history[..|history| - 1]);
      if IsSyscall(last.status) || IsExec(last.status) then before + [last] else before
  }

  function Join(entry: Stop, exit: Stop): Call
    requires entry.reply.regs.Ok? && exit.reply.regs.Ok?
  {
    Call(entry.reply.regs.value.nr, entry.reply.regs.value.args, exit.reply.regs.value.ret,
         Elapsed(entry.reply.now, exit.reply.now))
  }

  /**
   Reads a list of syscall and exec stops from the left: two syscall stops in a row are the
   two ends of one call; an exec stop voids the call it interrupts and the syscall stop
   that follows it.
   */
  function Pair(marks: seq<Stop>): seq<Call>
    requires forall s :: s in marks ==> s.reply.regs.Ok?
  {
    if |marks| < 2 then []
    else if IsExec(marks[0].status) then Pair(if IsExec(marks[1].status) then marks[1..] else marks[2..])
    else if IsExec(marks[1].status) then Pair(marks[1..])
    else [Join(marks[0], marks[1])] + Pair(marks[2..])
  }

  /** What `Pair` is left with at the end of the list: nothing, an open entry, or an exec. */
  function Rest(marks: seq<Stop>): (rest: seq<Stop>)
    ensures |rest| <= 1
    ensures forall s :: s in rest ==> s in marks
  {
    if |marks| < 2 then marks
    else if IsExec(marks[1].status) then Rest(marks[1..])
    else Rest(marks[2..])
  }

  lemma {:induction false} PairSnoc(marks: seq<Stop>, x: Stop)
    requires forall s :: s in marks + [x] ==> s.reply.regs.Ok?
    ensures Rest(marks + [x]) == Rest(Rest(marks) + [x])
    ensures Pair(marks + [x]) == Pair(marks) + Pair(Rest(marks) + [x])
    decreases |marks|
  {
    var longer := marks + [x];
    if |marks| >= 2 {
      assert longer[1..] == marks[1..] + [x] && longer[2..] == marks[2..] + [x];
      if IsExec(marks[1].status) {
        PairSnoc(marks[1..], x);
      } else {
        PairSnoc(marks[2..], x);
      }
    }
  }

  /** The stops a process seems to have behind it when the tracer first knows it: the root owes one after its exec. */
  ghost predicate StartsAs(t: Tracee, rest: seq<Stop>) {
    if |rest| == 0 then t.phase.Entry? && !t.skipNextSyscallStop
    else if IsExec(rest[0].status) then |rest| == 1 && t.phase.Entry? && t.skipNextSyscallStop
    else
      && |rest| == 1
      && rest[0].reply.regs.Ok?
      && !t.skipNextSyscallStop
      && t.phase == Exit(rest[0].reply.regs.value.nr, rest[0].reply.regs.value.args, rest[0].reply.now)
  }

  /** No stop was answered with an error, and none is a death. */
  ghost predicate Smooth(history: seq<Stop>) {
    forall s :: s in history ==>
      s.reply.regs.Ok? && s.reply.message.Ok? && s.reply.resume.Ok? && !IsDeath(s.status)
  }

  predicate IsMark(status: WaitStatus) { IsSyscall(status) || IsExec(status) }

  ghost predicate OwnStepPairs(t: Tracee, rest: seq<Stop>, stop: Stop)
    requires forall s :: s in rest + [stop] ==> s.reply.regs.Ok?
  {
    var step := OwnStep(t, stop);
    if IsMark(stop.status) then step.calls == Pair(rest + [stop]) && StartsAs(step.tracee, Rest(rest + [stop]))
    else step.calls == [] && StartsAs(step.tracee, rest)
  }

  lemma OwnStepPairsFresh(t: Tracee, stop: Stop)
    requires StartsAs(t, []) && Smooth([stop]) && stop in [stop]
    ensures OwnStepPairs(t, [], stop)
  {
    assert [] + [stop] == [stop];
  }

  lemma OwnStepPairsOpen(t: Tracee, open: Stop, stop: Stop)
    requires StartsAs(t, [open]) && Smooth([open]) && Smooth([stop]) && open in [open] && stop in [stop]
    ensures OwnStepPairs(t, [open], stop)
  {
    var both := [open] + [stop];
    assert both == [open, stop] && both[1..] == [stop] && both[2..] == [];
    assert Pair([stop]) == [] && Rest([stop]) == [stop];
    assert Pair([]) == [] && Rest([]) == [];
  }

  lemma OwnStepPairsAny(t: Tracee, rest: seq<Stop>, stop: Stop)
    requires |rest| <= 1 && StartsAs(t, rest) && Smooth(rest) && Smooth([stop]) && stop in [stop]
    ensures OwnStepPairs(t, rest, stop)
  {
    if |rest| == 0 {
      OwnStepPairsFresh(t, stop);
    } else {
      assert rest == [rest[0]];
      OwnStepPairsOpen(t, rest[0], stop);
    }
  }

  lemma PairShort(marks: seq<Stop>)
    requires |marks| < 2 && Smooth(marks)
    ensures Pair(marks) == [] && Rest(marks) == marks
  {
  }

  /** One more stop of the process, on top of the pairs so far. */
  lemma PairsGoOn(own: Own, marks: seq<Stop>, last: Stop)
    requires Smooth(marks) && Smooth([last]) && last in [last]
    requires own.calls == Pair(marks) && StartsAs(own.tracee, Rest(marks))
    ensures Smooth(marks + [last])
    ensures var step, all := OwnStep(own.tracee, last), if IsMark(last.status) then marks + [last] else marks;
            own.calls + step.calls == Pair(all) && StartsAs(step.tracee, Rest(all))
  {
    hide OwnStep, Pair, Rest, StartsAs;
    OwnStepPairsAny(own.tracee, Rest(marks), last);
    if IsMark(last.status) {
      PairSnoc(marks, last);
    }
  }

  lemma {:induction false} OwnRunPairs(start: Tracee, lead: seq<Stop>, history: seq<Stop>)
    requires StartsAs(start, lead) && Smooth(lead) && Smooth(history)
    ensures forall s :: s in Marks(history) ==> s in history
    ensures OwnRun(start, history).calls == Pair(lead + Marks(history))
    ensures StartsAs(OwnRun(start, history).tracee, Rest(lead + Marks(history)))
  {
    hide OwnStep, Pair, Rest;
    if |history| == 0 {
      PairShort(lead);
      assert lead + Marks(history) == lead;
    } else {
      var last := history[|history| - 1];
      var before := history[..|history| - 1];
      OwnRunPairs(start, lead, before);
      assert last in history;
      PairsGoOn(OwnRun(start, before), lead + Marks(before), last);
      assert IsMark(last.status) ==> lead + Marks(history) == lead + Marks(before) + [last];
    }
  }

  /**
   The events of one pid are the pairs read off that pid's own stops: entry with exit, each
   once, in order. The root is preceded by the exec stop at which `spawn` leaves it.
   */
  lemma EventsArePairs(cfg: Config, tracees: Tracees, lead: seq<Stop>, stream: seq<Stop>, p: Pid)
    requires ExecsRegistered(cfg, tracees, stream, p)
    requires StartsAs(View(tracees, p), lead) && Smooth(lead) && Smooth(OwnHistory(stream, p))
    requires p == cfg.rootPid || cfg.followForks
    ensures forall s :: s in Marks(OwnHistory(stream, p)) ==> s in OwnHistory(stream, p)
    ensures EventsOf(Fold(cfg, tracees, stream).emitted, p) == Attributed(p, Pair(lead + Marks(OwnHistory(stream, p))))
  {
    Projection(cfg, tracees, stream, p);
    OwnRunPairs(View(tracees, p), lead, OwnHistory(stream, p));
  }

  // ---------------------------------------------------- signals, resumes

  predicate IsSigstop(status: WaitStatus) { status.Stopped? && status.sig == Linux.SIGSTOP }

  ghost predicate FirstSigstop(history: seq<Stop>, i: nat)
    requires i < |history|
  {
    IsSigstop(history[i].status) && forall j :: 0 <= j < i ==> !IsSigstop(history[j].status)
  }

  /** What the i-th stop should be resumed with. */
  ghost function Answer(owesSigstop: bool, history: seq<Stop>, i: nat): Option<Signal>
    requires i < |history|
  {
    if history[i].status.Stopped? && !(owesSigstop && FirstSigstop(history, i)) then Some(history[i].status.sig)
    else None
  }

  lemma {:induction false} OwnRunAnswers(start: Tracee, history: seq<Stop>)
    requires Smooth(history) && forall s :: s in history ==> !s.status.Continued? && !s.status.StillAlive?
    ensures var own := OwnRun(start, history);
            && |own.resumed| == |history|
            && (forall i :: 0 <= i < |history| ==> own.resumed[i] == Answer(start.awaitingInitialSigstop, history, i))
            && own.tracee.awaitingInitialSigstop
                 == (start.awaitingInitialSigstop && forall i :: 0 <= i < |history| ==> !IsSigstop(history[i].status))
  {
    if |history| > 0 {
      var n := |history| - 1;
      var before := history[..n];
      OwnRunAnswers(start, before);
      forall i | 0 <= i < n ensures Answer(start.awaitingInitialSigstop, history, i) == Answer(start.awaitingInitialSigstop, before, i) {
        assert forall j :: 0 <= j <= i ==> before[j] == history[j];
      }
      assert forall i :: 0 <= i < n ==> before[i] == history[i];
    }
  }

  /**
   Every stop of a process is answered by exactly one resume of that process, in order:
   with the reported signal for a signal stop, with none for any other stop and for the
   first SIGSTOP of a process that began as a child.
   */
  lemma EveryStopAnsweredOnce(cfg: Config, tracees: Tracees, stream: seq<Stop>, p: Pid)
    requires ExecsRegistered(cfg, tracees, stream, p) && Smooth(OwnHistory(stream, p))
    ensures var history := OwnHistory(stream, p);
            var answers := ResumesOf(Fold(cfg, tracees, stream).resumed, p);
            && |answers| == |history|
            && forall i :: 0 <= i < |history| ==>
                 answers[i] == Answer(View(tracees, p).awaitingInitialSigstop, history, i)
  {
    Projection(cfg, tracees, stream, p);
    OwnHistoryConcerns(stream, p);
    OwnRunAnswers(View(tracees, p), OwnHistory(stream, p));
  }

  lemma {:induction false} OwnHistoryConcerns(stream: seq<Stop>, p: Pid)
    ensures forall s :: s in OwnHistory(stream, p) ==> s in stream && Concerns(s.status, p)
  {
    if |stream| > 0 {
      OwnHistoryConcerns(stream[..|stream| - 1], p);
    }
  }

  /** A death is answered by no resume, and the process is forgotten. */
  lemma DeathIsNotAnswered(cfg: Config, tracees: Tracees, stop: Stop)
    requires IsDeath(stop.status)
    ensures var o := Step(cfg, tracees, stop.status, stop.reply);
            o.resumed == [] && o.emitted == [] && o.tracees.Keys == tracees.Keys - {stop.status.pid}
  {
  }

  function Reported(history: seq<Stop>): seq<Signal> {
    if |history| == 0 then []
    else
      var last := history[|history| - 1].status;
      Reported(history[..|history| - 1]) + if last.Stopped? then [last.sig] else []
  }

  function Injected(answers: seq<Option<Signal>>): seq<Signal> {
    if |answers| == 0 then []
    else
      var last := answers[|answers| - 1];
      Injected(answers[..|answers| - 1]) + if last.Some? then [last.value] else []
  }

  function WithoutFirst(signals: seq<Signal>, sig: Signal): seq<Signal> {
    if |signals| == 0 then []
    else if signals[0] == sig then signals[1..]
    else [signals[0]] + WithoutFirst(signals[1..], sig)
  }

  lemma {:induction false} WithoutFirstSnoc(signals: seq<Signal>, sig: Signal, x: Signal)
    ensures WithoutFirst(signals + [x], sig)
              == if sig !in signals && x == sig then signals else WithoutFirst(signals, sig) + [x]
    ensures sig !in signals ==> WithoutFirst(signals, sig) == signals
  {
    if |signals| > 0 {
      WithoutFirstSnoc(signals[1..], sig, x);
      assert (signals + [x])[1..] == signals[1..] + [x];
      assert signals == [signals[0]] + signals[1..];
    }
  }

  lemma OwnStepConservesSignals(t: Tracee, stop: Stop)
    requires Smooth([stop]) && stop in [stop]
    ensures var step := OwnStep(t, stop);
            var swallowed := t.awaitingInitialSigstop && IsSigstop(stop.status);
            && step.tracee.awaitingInitialSigstop == (t.awaitingInitialSigstop && !swallowed)
            && Injected(step.resumed) == (if stop.status.Stopped? && !swallowed then [stop.status.sig] else [])
  {
    var step := OwnStep(t, stop);
    assert |step.resumed| == 1 ==> step.resumed[..0] == [];
  }

  lemma ConserveOne(owed: bool, owes: bool, reported: seq<Signal>, injected: seq<Signal>, last: WaitStatus)
    requires injected == if owed then WithoutFirst(reported, Linux.SIGSTOP) else reported
    requires owes == (owed && Linux.SIGSTOP !in reported)
    ensures var reported' := reported + if last.Stopped? then [last.sig] else [];
            var injected' := injected + if last.Stopped? && !(owes && IsSigstop(last)) then [last.sig] else [];
            && injected' == (if owed then WithoutFirst(reported', Linux.SIGSTOP) else reported')
            && (owes && !IsSigstop(last)) == (owed && Linux.SIGSTOP !in reported')
  {
    if last.Stopped? {
      WithoutFirstSnoc(reported, Linux.SIGSTOP, last.sig);
    } else {
      assert reported + [] == reported && injected + [] == injected;
    }
  }

  lemma {:induction false} InjectedConcat(a: seq<Option<Signal>>, b: seq<Option<Signal>>)
    ensures Injected(a + b) == Injected(a) + Injected(b)
  {
    if |b| == 0 {
      assert a + b == a;
    } else {
      assert (a + b)[..|a + b| - 1] == a + b[..|b| - 1];
      InjectedConcat(a, b[..|b| - 1]);
    }
  }

  lemma {:induction false} OwnRunConservesSignals(start: Tracee, history: seq<Stop>)
    requires Smooth(history)
    ensures var own := OwnRun(start, history);
            && Injected(own.resumed)
                 == (if start.awaitingInitialSigstop then WithoutFirst(Reported(history), Linux.SIGSTOP) else Reported(history))
            && own.tracee.awaitingInitialSigstop == (start.awaitingInitialSigstop && Linux.SIGSTOP !in Reported(history))
  {
    if |history| > 0 {
      var before := history[..|history| - 1];
      var last := history[|history| - 1];
      OwnRunConservesSignals(start, before);
      var own := OwnRun(start, before);
      OwnStepConservesSignals(own.tracee, last);
      InjectedConcat(own.resumed, OwnStep(own.tracee, last).resumed);
      ConserveOne(start.awaitingInitialSigstop, own.tracee.awaitingInitialSigstop, Reported(before), Injected(own.resumed), last.status);
    }
  }

  /**
   Signals are conserved: what is re-injected into a process is what was reported for it, in
   order, less the first SIGSTOP when it began as a child.
   */
  lemma SignalsConserved(cfg: Config, tracees: Tracees, stream: seq<Stop>, p: Pid)
    requires ExecsRegistered(cfg, tracees, stream, p) && Smooth(OwnHistory(stream, p))
    ensures var reported := Reported(OwnHistory(stream, p));
            var injected := Injected(ResumesOf(Fold(cfg, tracees, stream).resumed, p));
            && (p !in tracees ==> injected == WithoutFirst(reported, Linux.SIGSTOP))
            && (p in tracees && tracees[p] == NewRoot() ==> injected == reported)
  {
    Projection(cfg, tracees, stream, p);
    OwnRunConservesSignals(View(tracees, p), OwnHistory(stream, p));
  }

  // ---------------------------------------------------------- fork race

  ghost predicate IsForkOf(stop: Stop, parent: Pid, child: Pid) {
    && stop.status.PtraceEvent? && stop.status.pid == parent && Linux.CarriesChild(stop.status.evt)
    && stop.reply.message == Ok(child) && -0x8000_0000 <= child < 0x8000_0000
    && stop.reply.resume.Ok?
  }

  ghost predicate NoDeathOf(stream: seq<Stop>, p: Pid) {
    forall s :: s in stream ==> !(IsDeath(s.status) && s.status.pid == p)
  }

  /** `with` is `without` plus, at most, the child's entry as `or_insert_with` would make it. */
  ghost predicate SameButFresh(with: Outcome, without: Outcome, child: Pid) {
    && with.tracees == without.tracees[child := View(without.tracees, child)]
    && with.emitted == without.emitted && with.resumed == without.resumed
  }

  lemma SyscallIgnoresFreshEntry(cfg: Config, tracees: Tracees, pid: Pid, reply: Reply, child: Pid)
    ensures SameButFresh(StepSyscall(cfg, tracees[child := View(tracees, child)], pid, reply),
                         StepSyscall(cfg, tracees, pid, reply), child)
  {
    PutCommutes(tracees, pid, StepSyscall(cfg, tracees, pid, reply).tracees[pid], child);
  }

  lemma PutCommutes(tracees: Tracees, pid: Pid, t: Tracee, child: Pid)
    ensures View(tracees[child := View(tracees, child)], pid) == View(tracees, pid)
    ensures tracees[child := View(tracees, child)][pid := t] == tracees[pid := t][child := View(tracees[pid := t], child)]
  {
  }

  lemma EventIgnoresFreshEntry(tracees: Tracees, pid: Pid, evt: int, reply: Reply, child: Pid)
    requires evt == Linux.EXEC_EVENT && pid == child ==> child in tracees
    ensures SameButFresh(StepEvent(tracees[child := View(tracees, child)], pid, evt, reply),
                         StepEvent(tracees, pid, evt, reply), child)
  {
  }

  lemma SignalIgnoresFreshEntry(tracees: Tracees, pid: Pid, sig: Signal, reply: Reply, child: Pid)
    ensures SameButFresh(StepSignal(tracees[child := View(tracees, child)], pid, sig, reply),
                         StepSignal(tracees, pid, sig, reply), child)
  {
  }

  lemma StepIgnoresFreshEntry(cfg: Config, tracees: Tracees, stop: Stop, child: Pid)
    requires !(IsDeath(stop.status) && stop.status.pid == child)
    requires IsExecOf(stop.status, child) ==> child in tracees
    ensures SameButFresh(StepOn(cfg, tracees[child := View(tracees, child)], stop), StepOn(cfg, tracees, stop), child)
  {
    match stop.status
    case PtraceSyscall(pid) => SyscallIgnoresFreshEntry(cfg, tracees, pid, stop.reply, child);
    case PtraceEvent(pid, evt) => EventIgnoresFreshEntry(tracees, pid, evt, stop.reply, child);
    case Stopped(pid, sig) => SignalIgnoresFreshEntry(tracees, pid, sig, stop.reply, child);
    case Exited(pid, _) => RemovalIgnoresFreshEntry(tracees, pid, child);
    case Signaled(pid, _) => RemovalIgnoresFreshEntry(tracees, pid, child);
    case _ =>
  }

  lemma RemovalIgnoresFreshEntry(tracees: Tracees, pid: Pid, child: Pid)
    requires pid != child
    ensures tracees[child := View(tracees, child)] - {pid} == (tracees - {pid})[child := View(tracees - {pid}, child)]
  {
  }

  /** Having the child in the map from the start, as a fresh entry, changes nothing but its presence. */
  lemma {:induction false} FreshEntryIsInvisible(cfg: Config, tracees: Tracees, stream: seq<Stop>, child: Pid)
    requires NoDeathOf(stream, child) && ExecsRegistered(cfg, tracees, stream, child)
    ensures SameButFresh(Fold(cfg, tracees[child := View(tracees, child)], stream), Fold(cfg, tracees, stream), child)
  {
    if |stream| > 0 {
      var n := |stream| - 1;
      ExecsRegisteredPrefix(cfg, tracees, stream, child, n);
      FreshEntryIsInvisible(cfg, tracees, stream[..n], child);
      StepIgnoresFreshEntry(cfg, Fold(cfg, tracees, stream[..n]).tracees, stream[n], child);
    }
  }

  lemma {:induction false} FoldAppend(cfg: Config, tracees: Tracees, a: seq<Stop>, b: seq<Stop>)
    ensures var first := Fold(cfg, tracees, a);
            var second := Fold(cfg, first.tracees, b);
            var both := Fold(cfg, tracees, a + b);
            && both.tracees == second.tracees
            && both.emitted == first.emitted + second.emitted
            && both.resumed == first.resumed + second.resumed
  {
    if |b| == 0 {
      assert a + b == a;
    } else {
      var n := |b| - 1;
      assert (a + b)[..|a + b| - 1] == a + b[..n];
      FoldAppend(cfg, tracees, a, b[..n]);
      var first := Fold(cfg, tracees, a);
      var second := Fold(cfg, first.tracees, b[..n]);
      ThenAppend(first, second, Fold(cfg, tracees, a + b[..n]), StepOn(cfg, second.tracees, b[n]));
    }
  }

  lemma ThenAppend(first: Outcome, second: Outcome, both: Outcome, o: Outcome)
    requires both.emitted == first.emitted + second.emitted && both.resumed == first.resumed + second.resumed
    ensures Then(both, o).emitted == first.emitted + Then(second, o).emitted
    ensures Then(both, o).resumed == first.resumed + Then(second, o).resumed
  {
  }

  lemma FoldOne(cfg: Config, tracees: Tracees, stop: Stop)
    ensures Fold(cfg, tracees, [stop]) == StepOn(cfg, tracees, stop)
  {
    assert [stop][..0] == [];
  }

  /** The resumes of `q` come out the same with the parent's own resume first or last, unless they are the parent's. */
  lemma ResumesCommute(cfg: Config, tracees: Tracees, stream: seq<Stop>, parent: Pid, q: Pid)
    requires q == parent ==> forall s :: s in stream ==> !Concerns(s.status, parent)
    ensures var middle := Fold(cfg, tracees, stream).resumed;
            ResumesOf([Resume(parent, None)] + middle, q) == ResumesOf(middle + [Resume(parent, None)], q)
  {
    var middle := Fold(cfg, tracees, stream).resumed;
    ResumesOfConcat([Resume(parent, None)], middle, q);
    ResumesOfConcat(middle, [Resume(parent, None)], q);
    Singletons(SyscallEvent(0, 0, [], 0, 0), Resume(parent, None), q);
    if q == parent {
      NoStopsNoHistory(stream, parent);
      NoExecsRegistered(cfg, tracees, stream, parent);
      Projection(cfg, tracees, stream, parent);
    }
  }

  lemma NoExecsRegistered(cfg: Config, tracees: Tracees, stream: seq<Stop>, p: Pid)
    requires forall s :: s in stream ==> !Concerns(s.status, p)
    ensures ExecsRegistered(cfg, tracees, stream, p)
  {
    assert forall i :: 0 <= i < |stream| ==> stream[i] in stream;
  }

  /** A fork event by itself. */
  lemma FoldFork(cfg: Config, tracees: Tracees, fork: Stop, parent: Pid, child: Pid)
    requires IsForkOf(fork, parent, child)
    ensures Fold(cfg, tracees, [fork])
         == Outcome(tracees[child := View(tracees, child)], [], [Resume(parent, None)], Ok(()))
  {
    FoldOne(cfg, tracees, fork);
  }

  /**
   Whichever is handled first, the parent's fork event or any stops of other processes, among them its still-living
   child's, the map, the events and every process's resumes come out the same. (The parent itself is stopped at the
   fork until it is resumed, so there are no stops of its own in between; of the others the claim needs nothing.)
   */
  lemma ForkRaceConfluent(cfg: Config, tracees: Tracees, fork: Stop, parent: Pid, child: Pid, stream: seq<Stop>, q: Pid)
    requires IsForkOf(fork, parent, child)
    requires NoDeathOf(stream, child) && ExecsRegistered(cfg, tracees, stream, child)
    ensures var early := Fold(cfg, tracees, [fork] + stream);
            var late := Fold(cfg, tracees, stream + [fork]);
            && early.tracees == late.tracees
            && early.emitted == late.emitted
            && ((q == parent ==> forall s :: s in stream ==> !Concerns(s.status, parent)) ==>
                  ResumesOf(early.resumed, q) == ResumesOf(late.resumed, q))
  {
    hide Fold, IsForkOf, ExecsRegistered;
    FoldAppend(cfg, tracees, [fork], stream);
    FoldAppend(cfg, tracees, stream, [fork]);
    FoldFork(cfg, tracees, fork, parent, child);
    FoldFork(cfg, Fold(cfg, tracees, stream).tracees, fork, parent, child);
    FreshEntryIsInvisible(cfg, tracees, stream, child);
    if q == parent ==> forall s :: s in stream ==> !Concerns(s.status, parent) {
      ResumesCommute(cfg, tracees, stream, parent, q);
    }
  }

  lemma {:induction false} NoStopsNoHistory(stream: seq<Stop>, p: Pid)
    requires forall s :: s in stream ==> !Concerns(s.status, p)
    ensures OwnHistory(stream, p) == []
  {
    if |stream| > 0 {
      NoStopsNoHistory(stream[..|stream| - 1], p);
    }
  }

  /**
   If the child's exit is handled before the fork event, one fresh entry for it is left behind, and that is the one
   difference: the events and every process's resumes come out the same.
   */
  lemma ForkRaceAfterExit(cfg: Config, tracees: Tracees, fork: Stop, parent: Pid, child: Pid, stream: seq<Stop>,
                          death: Stop, q: Pid)
    requires IsForkOf(fork, parent, child) && parent != child
    requires NoDeathOf(stream, child) && ExecsRegistered(cfg, tracees, stream, child)
    requires IsDeath(death.status) && death.status.pid == child
    ensures var early := Fold(cfg, tracees, [fork] + (stream + [death]));
            var late := Fold(cfg, tracees, (stream + [death]) + [fork]);
            && child !in early.tracees
            && late.tracees == early.tracees[child := NewChild()]
            && early.emitted == late.emitted
            && ((q == parent ==> forall s :: s in stream ==> !Concerns(s.status, parent)) ==>
                  ResumesOf(early.resumed, q) == ResumesOf(late.resumed, q))
  {
    hide Fold, IsForkOf, ExecsRegistered;
    var with := tracees[child := View(tracees, child)];
    FreshEntryIsInvisible(cfg, tracees, stream, child);
    FoldAppend(cfg, tracees, [fork], stream + [death]);
    FoldFork(cfg, tracees, fork, parent, child);
    FoldThenDeath(cfg, with, stream, death);
    FoldAppend(cfg, tracees, stream + [death], [fork]);
    FoldFork(cfg, Fold(cfg, tracees, stream + [death]).tracees, fork, parent, child);
    FoldThenDeath(cfg, tracees, stream, death);
    if q == parent ==> forall s :: s in stream ==> !Concerns(s.status, parent) {
      ResumesCommute(cfg, tracees, stream, parent, q);
    }
  }

  lemma FoldThenDeath(cfg: Config, tracees: Tracees, stream: seq<Stop>, death: Stop)
    requires IsDeath(death.status)
    ensures var before := Fold(cfg, tracees, stream);
            var o := Fold(cfg, tracees, stream + [death]);
            o.tracees == before.tracees - {death.status.pid} && o.emitted == before.emitted && o.resumed == before.resumed
  {
    assert (stream + [death])[..|stream|] == stream;
  }
}
