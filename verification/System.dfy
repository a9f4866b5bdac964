/**
 The tracer and the kernel together. A run is a list of actions, each enabled where it is
 taken: processes stop and die when they like, also while the tracer is between waitpid and
 the resume. Every property is of every run.
 */
module System {
  import opened Prelude
  import opened TracerModel
  import Linux
  import opened Kernel

  /** Ready: at the head of the loop. Handling: waitpid has returned this report (None: a death). */
  datatype Control = Ready | Handling(pid: Pid, report: Option<Report>)

  datatype Sys = Sys(
    procs: map<Pid, Proc>,
    used: set<Pid>,   // every pid there has been
    lost: set<Pid>,   // children whose fork stop was never handled because its process died at it
    run: RunState,
    control: Control,
    killedBy: Option<Signal>,  // of the death being handled
    seen: seq<Seen>,           // reports the tracer got at: not those whose process was gone when it came to them
    script: seq<WaitReply>     // what the loop got, in full
  )

  datatype Action =
    | StopAt(pid: Pid, report: Report)
    | Die(pid: Pid, cause: Option<Signal>)
    | Wait(pid: Pid)
    | Handle(now: nat)
    | KilledMidway(now: nat, cause: Option<Signal>)  // handling, with the death before the resume
    | NoChild
    | Interrupt
    | WaitFails(errno: Errno)  // waitpid fails in some other way

  /** What becomes of the resume the loop begins with: the root may be killed at its exec stop, before it. */
  datatype Start = Accepted | RootKilled(cause: Option<Signal>)

  function FirstAnswer(start: Start): Result<(), Errno> { if start.Accepted? then Ok(()) else Err(Linux.ESRCH) }

  function Init(cfg: Config, start: Start): Sys {
    var status := if start.Accepted? then Running else Zombie(start.cause);
    Sys(map[cfg.rootPid := Proc(status, ExecTail, false)], {cfg.rootPid}, {},
        Started(cfg, map[cfg.rootPid := NewRoot()], FirstAnswer(start)), Ready, None, [], [])
  }

  predicate Enabled(s: Sys, a: Action) {
    && s.run.finished.None?
    && match a
       case StopAt(p, r) =>
         && p in s.procs && s.procs[p].status.Running? && Legal(s.procs[p].pos, r)
         && (r.Forked? ==> r.child !in s.used)
       case Die(p, cause) => p in s.procs && !s.procs[p].Dead() && (cause.Some? ==> NamedSignal(cause.value))
       case Wait(p) => s.control.Ready? && p in s.procs && (s.procs[p].status.Unread? || s.procs[p].Dead())
       case Handle(_) => s.control.Handling? && (s.control.report.Some? ==> s.control.pid in s.procs)
       case KilledMidway(_, cause) =>
         && s.control.Handling? && s.control.report.Some?
         && s.control.pid in s.procs && !s.procs[s.control.pid].Dead()
         && (cause.Some? ==> NamedSignal(cause.value))
       case NoChild => s.control.Ready? && s.procs == map[]
       case Interrupt => s.control.Ready?
       case WaitFails(e) => s.control.Ready? && e != Linux.ECHILD && e != Linux.EINTR
  }

  /** The wait status being handled and the kernel's answers while it is. */
  function WaitReplyOf(s: Sys, now: nat): WaitReply
    requires Enabled(s, Handle(now))
  {
    var p := s.control.pid;
    match s.control.report
    case None => Status(DeathOf(p, s.killedBy), ReplyGone(now))
    case Some(r) => Status(StatusOf(p, r), if s.procs[p].Dead() then ReplyGone(now) else ReplyAt(r, now))
  }

  function HandleOutcome(cfg: Config, s: Sys, now: nat): Outcome
    requires Enabled(s, Handle(now))
  {
    var w := WaitReplyOf(s, now);
    Step(cfg, s.run.tracees, w.status, w.reply)
  }

  /** The system once the handler has come out with `o`. */
  function Handled(s: Sys, w: WaitReply, o: Outcome): Sys
    requires s.control.Handling?
  {
    s.(procs := Resumed(s.procs, o.resumed),
       run := Applied(s.run, o),
       control := Ready,
       seen := s.seen + [Seen(s.control.pid, s.control.report)],
       script := s.script + [w])
  }

  function Apply(cfg: Config, s: Sys, a: Action): Sys
    requires Enabled(s, a)
  {
    match a
    case StopAt(p, r) =>
      var procs := s.procs[p := s.procs[p].(status := Unread(r))];
      if r.Forked? then s.(procs := procs[r.child := Proc(Running, User, true)], used := s.used + {r.child})
      else s.(procs := procs)
    case Die(p, cause) =>
      var r := s.procs[p].Pending();
      s.(procs := s.procs[p := s.procs[p].(status := Zombie(cause))],
         lost := if r.Some? && r.value.Forked? then s.lost + {r.value.child} else s.lost)
    case Wait(p) =>
      (match s.procs[p].status
       case Unread(r) => s.(procs := s.procs[p := s.procs[p].(status := Read(r))], control := Handling(p, Some(r)))
       case Zombie(cause) => s.(procs := s.procs - {p}, control := Handling(p, None), killedBy := cause)
       case _ => s)
    case Handle(now) =>
      var t := Handled(s, WaitReplyOf(s, now), HandleOutcome(cfg, s, now));
      if s.control.report.Some? && s.procs[s.control.pid].Dead() then t.(seen := s.seen) else t
    case KilledMidway(now, cause) =>
      var p, r := s.control.pid, s.control.report.value;
      var w := Status(StatusOf(p, r), ReplyTorn(r, now));
      Handled(s.(procs := s.procs[p := s.procs[p].(status := Zombie(cause))]), w,
              Step(cfg, s.run.tracees, w.status, w.reply))
    case NoChild => s.(run := LoopStep(cfg, s.run, WaitFailed(Linux.ECHILD)), script := s.script + [WaitFailed(Linux.ECHILD)])
    case Interrupt => s.(run := LoopStep(cfg, s.run, WaitFailed(Linux.EINTR)), script := s.script + [WaitFailed(Linux.EINTR)])
    case WaitFails(e) => s.(run := LoopStep(cfg, s.run, WaitFailed(e)), script := s.script + [WaitFailed(e)])
  }

  /** The state after the actions `acts`, if each is enabled in its turn. */
  function Reach(cfg: Config, start: Start, acts: seq<Action>): Option<Sys> {
    if |acts| == 0 then Some(Init(cfg, start))
    else
      match Reach(cfg, start, acts[..|acts| - 1])
      case None => None
      case Some(s) => if Enabled(s, acts[|acts| - 1]) then Some(Apply(cfg, s, acts[|acts| - 1])) else None
  }

  // ---------------------------------------------------------- invariants

  /** The tracer's record of a process says where the process is. */
  ghost predicate Matches(t: Tracee, pos: Position, owes: bool) {
    && t.awaitingInitialSigstop == owes
    && match pos
       case User => t.phase.Entry? && !t.skipNextSyscallStop
       case ExecTail => t.phase.Entry? && t.skipNextSyscallStop
       case InSyscall(nr, args) =>
         t.phase.Exit? && t.phase.nr == nr && t.phase.args == args && !t.skipNextSyscallStop
  }

  ghost predicate ViewsMatch(s: Sys) {
    forall p :: p in s.procs && !s.procs[p].Dead() ==>
      Matches(View(s.run.tracees, p), s.procs[p].pos, s.procs[p].owesSigstop)
  }

  ghost predicate ReportsLegal(s: Sys) {
    forall p :: p in s.procs && s.procs[p].Pending().Some? ==> Legal(s.procs[p].pos, s.procs[p].Pending().value)
  }

  ghost predicate Reaping(s: Sys, p: Pid) { s.control == Handling(p, None) }

  /** An entry without a process: a fresh one, for a child that came and went before its fork event. */
  ghost predicate StaleAreFresh(cfg: Config, s: Sys) {
    forall p :: p in s.run.tracees && p !in s.procs && !Reaping(s, p) ==>
      p != cfg.rootPid && s.run.tracees[p] == NewChild()
  }

  ghost predicate Announces(procs: map<Pid, Proc>, q: Pid, child: Pid) {
    q in procs && procs[q].Pending().Some? && procs[q].Pending().value.Forked? && procs[q].Pending().value.child == child
  }

  ghost predicate UnregisteredAreNamed(s: Sys) {
    forall p :: p in s.procs && p !in s.run.tracees ==> p in s.lost || exists q :: Announces(s.procs, q, p)
  }

  ghost predicate PidsKnown(cfg: Config, s: Sys) {
    && cfg.rootPid in s.used
    && s.procs.Keys <= s.used && s.run.tracees.Keys <= s.used
    && (forall x :: x in s.seen ==> x.pid in s.used)
    && (forall q, c :: Announces(s.procs, q, c) ==> c in s.used && c != cfg.rootPid && c != q)
  }

  ghost predicate ControlFits(s: Sys) {
    && (forall q :: q in s.procs && s.procs[q].status.Read? ==> s.control == Handling(q, Some(s.procs[q].status.report)))
    && match s.control
       case Ready => true
       case Handling(p, None) => p !in s.procs && p in s.used
       case Handling(p, Some(r)) => p in s.procs && (s.procs[p].Dead() || s.procs[p].status == Read(r))
  }

  ghost predicate OpenCallsFit(s: Sys) {
    forall p :: p in s.procs && !s.procs[p].Dead() ==>
      OpenCall(s.seen, p) == if s.procs[p].pos.InSyscall? then Some((s.procs[p].pos.nr, s.procs[p].pos.args)) else None
  }

  function Undated(events: seq<SyscallEvent>): seq<TrueCall> {
    if |events| == 0 then []
    else
      var e := events[|events| - 1];
      Undated(events[..|events| - 1]) + [TrueCall(e.pid, e.nr, e.args, e.ret)]
  }

  function Visible(cfg: Config, calls: seq<TrueCall>): seq<TrueCall> {
    if |calls| == 0 then []
    else
      var c := calls[|calls| - 1];
      Visible(cfg, calls[..|calls| - 1]) + if c.pid == cfg.rootPid || cfg.followForks then [c] else []
  }

  ghost predicate EventsTrue(cfg: Config, s: Sys) {
    Undated(s.run.events) == Visible(cfg, Completed(s.seen))
  }

  ghost predicate Inv(cfg: Config, s: Sys) {
    && ViewsMatch(s) && ReportsLegal(s) && StaleAreFresh(cfg, s) && UnregisteredAreNamed(s)
    && PidsKnown(cfg, s) && ControlFits(s) && OpenCallsFit(s) && EventsTrue(cfg, s)
  }

  /** How the loop can have ended. */
  ghost predicate Ended(s: Sys) {
    match s.run.finished
    case None => s.run.tracees != map[]
    case Some(Ok(_)) => s.run.tracees == map[] || s.procs == map[]
    case Some(Err(e)) => e.Ptrace?
  }

  ghost predicate Good(cfg: Config, s: Sys) {
    && Ended(s)
    && EventsTrue(cfg, s)
    && (!(s.run.finished.Some? && s.run.finished.value.Err?) ==> Inv(cfg, s))
  }

  lemma InitGood(cfg: Config, start: Start)
    ensures Good(cfg, Init(cfg, start))
  {
  }

  lemma StopAtNames(cfg: Config, s: Sys, p: Pid, r: Report)
    requires Inv(cfg, s) && Enabled(s, StopAt(p, r))
    ensures var t := Apply(cfg, s, StopAt(p, r)); UnregisteredAreNamed(t) && PidsKnown(cfg, t)
  {
    hide ViewsMatch, ReportsLegal, StaleAreFresh, OpenCallsFit, EventsTrue, Legal;
    var t := Apply(cfg, s, StopAt(p, r));
    forall c | c in t.procs && c !in t.run.tracees ensures c in t.lost || exists q :: Announces(t.procs, q, c) {
      if c in s.procs && c !in s.lost {
        var q :| Announces(s.procs, q, c);
        assert Announces(t.procs, q, c);
      } else if c !in s.procs {
        assert Announces(t.procs, p, c);
      }
    }
    forall q, c | Announces(t.procs, q, c) ensures c in t.used && c != cfg.rootPid && c != q {
      assert Announces(s.procs, q, c) || c == r.child;
    }
  }

  lemma StopAtCalls(cfg: Config, s: Sys, p: Pid, r: Report)
    requires Inv(cfg, s) && Enabled(s, StopAt(p, r))
    ensures var t := Apply(cfg, s, StopAt(p, r)); OpenCallsFit(t) && EventsTrue(cfg, t)
  {
    hide ViewsMatch, ReportsLegal, StaleAreFresh, UnregisteredAreNamed, Legal, Undated, Visible, Completed;
    if r.Forked? {
      NeverSeen(s.seen, r.child);
    }
  }

  lemma StopAtGood(cfg: Config, s: Sys, p: Pid, r: Report)
    requires Good(cfg, s) && Enabled(s, StopAt(p, r))
    ensures Good(cfg, Apply(cfg, s, StopAt(p, r)))
  {
    hide UnregisteredAreNamed, PidsKnown, OpenCallsFit, EventsTrue;
    StopAtNames(cfg, s, p, r);
    StopAtCalls(cfg, s, p, r);
    if r.Forked? {
      ChildIsNew(cfg, s, p, r);
    }
  }

  lemma ChildIsNew(cfg: Config, s: Sys, p: Pid, r: Report)
    requires Inv(cfg, s) && Enabled(s, StopAt(p, r)) && r.Forked?
    ensures r.child !in s.procs && r.child !in s.run.tracees
  {
    assert r.child !in s.procs.Keys && r.child !in s.run.tracees.Keys;
  }

  lemma {:induction false} NeverSeen(seen: seq<Seen>, p: Pid)
    requires forall x :: x in seen ==> x.pid != p
    ensures OpenCall(seen, p) == None
  {
    if |seen| > 0 {
      NeverSeen(seen[..|seen| - 1], p);
    }
  }

  lemma DieGood(cfg: Config, s: Sys, p: Pid, cause: Option<Signal>)
    requires Good(cfg, s) && Enabled(s, Die(p, cause))
    ensures Good(cfg, Apply(cfg, s, Die(p, cause)))
  {
    hide Undated, Visible, Completed, OpenCall, Matches;
    var t := Apply(cfg, s, Die(p, cause));
    forall q, c | Announces(t.procs, q, c) ensures c in t.used && c != cfg.rootPid && c != q {
      assert Announces(s.procs, q, c);
    }
    forall c | c in t.procs && c !in t.run.tracees ensures c in t.lost || exists q :: Announces(t.procs, q, c) {
      if c !in t.lost {
        var q :| Announces(s.procs, q, c);
        assert Announces(t.procs, q, c);
      }
    }
  }

  lemma WaitNames(cfg: Config, s: Sys, p: Pid)
    requires Inv(cfg, s) && Enabled(s, Wait(p))
    ensures var t := Apply(cfg, s, Wait(p)); UnregisteredAreNamed(t) && PidsKnown(cfg, t)
  {
    hide ViewsMatch, ReportsLegal, StaleAreFresh, OpenCallsFit, EventsTrue;
    var t := Apply(cfg, s, Wait(p));
    forall q, c | Announces(t.procs, q, c) ensures c in t.used && c != cfg.rootPid && c != q {
      assert Announces(s.procs, q, c);
    }
    forall c | c in t.procs && c !in t.run.tracees ensures c in t.lost || exists q :: Announces(t.procs, q, c) {
      if c !in t.lost {
        var q :| Announces(s.procs, q, c);
        assert Announces(t.procs, q, c);
      }
    }
  }

  lemma WaitGood(cfg: Config, s: Sys, p: Pid)
    requires Good(cfg, s) && Enabled(s, Wait(p))
    ensures Good(cfg, Apply(cfg, s, Wait(p)))
  {
    hide Undated, Visible, Completed, OpenCall, Matches, UnregisteredAreNamed;
    WaitNames(cfg, s, p);
  }

  // ------------------------------------------------- one handled report

  /** The call a report completes, as the sink may see it. */
  function CallOf(cfg: Config, p: Pid, pos: Position, r: Report): seq<TrueCall> {
    if r.SyscallExit? && pos.InSyscall? && (p == cfg.rootPid || cfg.followForks)
    then [TrueCall(p, pos.nr, pos.args, r.regs.ret)] else []
  }

  /** What handling report `r` of `p` does, in the kernel's terms. */
  ghost predicate Effect(cfg: Config, tracees: Tracees, p: Pid, pos: Position, owes: bool, r: Report, o: Outcome) {
    && o.result == Ok(())
    && |o.resumed| == 1 && o.resumed[0].pid == p
    && Undated(o.emitted) == CallOf(cfg, p, pos, r)
    && Matches(View(o.tracees, p), PositionAfter(pos, r), StillOwes(owes, r))
    && (forall q :: q != p ==> View(o.tracees, q) == View(tracees, q))
    && (forall q :: q in o.tracees ==> q in tracees || q == p || (r.Forked? && q == r.child))
    && (forall q :: q in tracees ==> q in o.tracees)
    && (r.Forked? ==> r.child in o.tracees)
  }

  lemma UndatedOne(e: SyscallEvent)
    ensures Undated([]) == [] && Undated([e]) == [TrueCall(e.pid, e.nr, e.args, e.ret)]
  {
    assert [e][..0] == [];
  }

  lemma HandledReport(cfg: Config, tracees: Tracees, p: Pid, pos: Position, owes: bool, r: Report, now: nat)
    requires Matches(View(tracees, p), pos, owes) && Legal(pos, r)
    requires r.Forked? ==> r.child != p
    ensures Effect(cfg, tracees, p, pos, owes, r, Step(cfg, tracees, StatusOf(p, r), ReplyAt(r, now)))
  {
    var o := Step(cfg, tracees, StatusOf(p, r), ReplyAt(r, now));
    UndatedOne(if o.emitted == [] then SyscallEvent(0, 0, [], 0, 0) else o.emitted[0]);
  }

  lemma {:induction false} UndatedConcat(a: seq<SyscallEvent>, b: seq<SyscallEvent>)
    ensures Undated(a + b) == Undated(a) + Undated(b)
  {
    if |b| == 0 {
      assert a + b == a;
    } else {
      assert (a + b)[..|a + b| - 1] == a + b[..|b| - 1];
      UndatedConcat(a, b[..|b| - 1]);
    }
  }

  lemma {:induction false} VisibleConcat(cfg: Config, a: seq<TrueCall>, b: seq<TrueCall>)
    ensures Visible(cfg, a + b) == Visible(cfg, a) + Visible(cfg, b)
  {
    if |b| == 0 {
      assert a + b == a;
    } else {
      assert (a + b)[..|a + b| - 1] == a + b[..|b| - 1];
      VisibleConcat(cfg, a, b[..|b| - 1]);
    }
  }

  /** The handler of a stop of a living process, about to be recorded in the system. */
  ghost predicate AtStop(cfg: Config, s: Sys, p: Pid, r: Report, o: Outcome) {
    && Inv(cfg, s) && s.run.finished.None?
    && s.control == Handling(p, Some(r)) && !s.procs[p].Dead()
    && Effect(cfg, s.run.tracees, p, s.procs[p].pos, s.procs[p].owesSigstop, r, o)
  }

  lemma ResumedOne(procs: map<Pid, Proc>, resumed: seq<Resume>, p: Pid, r: Report)
    requires p in procs && procs[p].status == Read(r)
    requires |resumed| == 1 && resumed[0].pid == p
    ensures Resumed(procs, resumed) == procs[p := Proc(Running, PositionAfter(procs[p].pos, r), StillOwes(procs[p].owesSigstop, r))]
  {
    assert resumed[..0] == [];
  }

  lemma HandledStopViews(cfg: Config, s: Sys, w: WaitReply, p: Pid, r: Report, o: Outcome)
    requires AtStop(cfg, s, p, r, o)
    ensures var t := Handled(s, w, o); ViewsMatch(t) && ReportsLegal(t) && ControlFits(t)
  {
    ResumedOne(s.procs, o.resumed, p, r);
  }

  lemma HandledStopEntries(cfg: Config, s: Sys, w: WaitReply, p: Pid, r: Report, o: Outcome)
    requires AtStop(cfg, s, p, r, o)
    ensures var t := Handled(s, w, o); StaleAreFresh(cfg, t) && UnregisteredAreNamed(t)
  {
    ResumedOne(s.procs, o.resumed, p, r);
    var t := Handled(s, w, o);
    assert r.Forked? ==> Announces(s.procs, p, r.child);
    forall q | q in t.procs && q !in t.run.tracees ensures q in t.lost || exists x :: Announces(t.procs, x, q) {
      if q !in t.lost {
        var x :| Announces(s.procs, x, q);
        assert Announces(t.procs, x, q);
      }
    }
    forall q | q in t.run.tracees && q !in t.procs ensures q != cfg.rootPid && t.run.tracees[q] == NewChild() {
      assert t.run.tracees[q] == View(s.run.tracees, q);
    }
  }

  lemma HandledStopPids(cfg: Config, s: Sys, w: WaitReply, p: Pid, r: Report, o: Outcome)
    requires AtStop(cfg, s, p, r, o)
    ensures PidsKnown(cfg, Handled(s, w, o))
  {
    ResumedOne(s.procs, o.resumed, p, r);
    var t := Handled(s, w, o);
    assert r.Forked? ==> Announces(s.procs, p, r.child);
    forall q | q in o.tracees.Keys ensures q in s.used {
      assert q in s.run.tracees.Keys || q in s.procs.Keys || (r.Forked? && q == r.child);
    }
    forall q, c | Announces(t.procs, q, c) ensures c in t.used && c != cfg.rootPid && c != q {
      assert Announces(s.procs, q, c);
    }
  }

  lemma HandledStopCalls(cfg: Config, s: Sys, w: WaitReply, p: Pid, r: Report, o: Outcome)
    requires AtStop(cfg, s, p, r, o)
    ensures OpenCallsFit(Handled(s, w, o))
  {
    hide ViewsMatch, StaleAreFresh, UnregisteredAreNamed, PidsKnown, EventsTrue, Matches, View, Completed, Applied;
    ResumedOne(s.procs, o.resumed, p, r);
    var t := Handled(s, w, o);
    assert t.seen[..|t.seen| - 1] == s.seen;
  }

  lemma HandledStopEvents(cfg: Config, s: Sys, w: WaitReply, p: Pid, r: Report, o: Outcome)
    requires Inv(cfg, s) && s.control == Handling(p, Some(r)) && !s.procs[p].Dead()
    requires Undated(o.emitted) == CallOf(cfg, p, s.procs[p].pos, r)
    ensures EventsTrue(cfg, Handled(s, w, o))
  {
    hide ViewsMatch, StaleAreFresh, UnregisteredAreNamed, PidsKnown, Matches, View, OpenCall, Resumed, Undated;
    var t := Handled(s, w, o);
    assert t.seen[..|t.seen| - 1] == s.seen;
    UndatedConcat(s.run.events, o.emitted);
    if r.SyscallExit? {
      var pos := s.procs[p].pos;
      var c := TrueCall(p, pos.nr, pos.args, r.regs.ret);
      VisibleConcat(cfg, Completed(s.seen), [c]);
      assert [c][..0] == [];
    }
  }

  /** Handling a stop whose process is still alive. */
  lemma HandledStopGood(cfg: Config, s: Sys, w: WaitReply, p: Pid, r: Report, o: Outcome)
    requires AtStop(cfg, s, p, r, o) && Ended(s)
    ensures Inv(cfg, Handled(s, w, o)) && Ended(Handled(s, w, o))
  {
    HandledStopViews(cfg, s, w, p, r, o);
    HandledStopEntries(cfg, s, w, p, r, o);
    HandledStopPids(cfg, s, w, p, r, o);
    HandledStopCalls(cfg, s, w, p, r, o);
    HandledStopEvents(cfg, s, w, p, r, o);
  }

  /** The handler of a death, about to be recorded in the system. */
  ghost predicate AtDeath(cfg: Config, s: Sys, p: Pid, o: Outcome) {
    && Inv(cfg, s) && s.run.finished.None? && s.control == Handling(p, None)
    && o == Outcome(s.run.tracees - {p}, [], [], Ok(()))
  }

  lemma HandledDeathProcs(cfg: Config, s: Sys, w: WaitReply, p: Pid, o: Outcome)
    requires AtDeath(cfg, s, p, o)
    ensures var t := Handled(s, w, o);
            ViewsMatch(t) && ReportsLegal(t) && ControlFits(t) && StaleAreFresh(cfg, t) && UnregisteredAreNamed(t)
  {
    assert forall q :: q != p ==> View(o.tracees, q) == View(s.run.tracees, q);
  }

  lemma HandledDeathPids(cfg: Config, s: Sys, w: WaitReply, p: Pid, o: Outcome)
    requires AtDeath(cfg, s, p, o)
    ensures PidsKnown(cfg, Handled(s, w, o))
  {
  }

  lemma HandledDeathCalls(cfg: Config, s: Sys, w: WaitReply, p: Pid, o: Outcome)
    requires AtDeath(cfg, s, p, o)
    ensures var t := Handled(s, w, o); OpenCallsFit(t) && EventsTrue(cfg, t)
  {
    hide ViewsMatch, ReportsLegal, StaleAreFresh, UnregisteredAreNamed, PidsKnown, Undated, Visible;
    var t := Handled(s, w, o);
    assert t.seen[..|t.seen| - 1] == s.seen;
    assert t.run.events == s.run.events;
    assert t.procs == s.procs;
  }

  lemma HandledDeathGood(cfg: Config, s: Sys, w: WaitReply, p: Pid)
    requires Inv(cfg, s) && Ended(s) && s.run.finished.None? && s.control == Handling(p, None)
    ensures var t := Handled(s, w, Outcome(s.run.tracees - {p}, [], [], Ok(())));
            Inv(cfg, t) && Ended(t)
  {
    HandledDeathProcs(cfg, s, w, p, Outcome(s.run.tracees - {p}, [], [], Ok(())));
    HandledDeathPids(cfg, s, w, p, Outcome(s.run.tracees - {p}, [], [], Ok(())));
    HandledDeathCalls(cfg, s, w, p, Outcome(s.run.tracees - {p}, [], [], Ok(())));
  }

  /** A stop whose process has been killed meanwhile: ptrace fails and the loop returns that error. */
  lemma HandledGone(cfg: Config, s: Sys, now: nat, p: Pid, r: Report)
    requires Good(cfg, s) && s.run.finished.None? && s.control == Handling(p, Some(r)) && s.procs[p].Dead()
    ensures Apply(cfg, s, Handle(now)).run.finished == Some(Err(Ptrace(Linux.ESRCH)))
    ensures EventsTrue(cfg, Apply(cfg, s, Handle(now)))
  {
    hide Inv, Undated, Visible, Completed;
    assert s.run.events + [] == s.run.events;
  }

  /** A torn handler emits what the whole one would have. */
  lemma TornEmitsAlike(cfg: Config, tracees: Tracees, p: Pid, r: Report, now: nat)
    ensures var o := Step(cfg, tracees, StatusOf(p, r), ReplyTorn(r, now));
            o.result == Err(Ptrace(Linux.ESRCH)) && o.emitted == Step(cfg, tracees, StatusOf(p, r), ReplyAt(r, now)).emitted
  {
  }

  /** A stop whose process is killed in the middle of its handler: the event is out, then the resume fails. */
  lemma KilledMidwayGood(cfg: Config, s: Sys, now: nat, cause: Option<Signal>)
    requires Good(cfg, s) && Enabled(s, KilledMidway(now, cause))
    ensures Good(cfg, Apply(cfg, s, KilledMidway(now, cause)))
    ensures Apply(cfg, s, KilledMidway(now, cause)).run.finished == Some(Err(Ptrace(Linux.ESRCH)))
  {
    hide ViewsMatch, ReportsLegal, StaleAreFresh, UnregisteredAreNamed, PidsKnown, OpenCallsFit, Undated, Visible, Completed, Step;
    var p, r := s.control.pid, s.control.report.value;
    var w := Status(StatusOf(p, r), ReplyTorn(r, now));
    var o := Step(cfg, s.run.tracees, w.status, w.reply);
    TornEmitsAlike(cfg, s.run.tracees, p, r, now);
    HandleLivingGood(cfg, s, now, p, r);
    HandledStopEvents(cfg, s, w, p, r, o);
  }

  lemma HandleLivingGood(cfg: Config, s: Sys, now: nat, p: Pid, r: Report)
    requires Good(cfg, s) && s.run.finished.None? && s.control == Handling(p, Some(r)) && p in s.procs && !s.procs[p].Dead()
    ensures AtStop(cfg, s, p, r, HandleOutcome(cfg, s, now))
  {
    assert r.Forked? ==> Announces(s.procs, p, r.child);
    HandledReport(cfg, s.run.tracees, p, s.procs[p].pos, s.procs[p].owesSigstop, r, now);
  }

  lemma HandleGood(cfg: Config, s: Sys, now: nat)
    requires Good(cfg, s) && Enabled(s, Handle(now))
    ensures Good(cfg, Apply(cfg, s, Handle(now)))
  {
    hide ViewsMatch, ReportsLegal, StaleAreFresh, UnregisteredAreNamed, PidsKnown, OpenCallsFit, EventsTrue;
    var p := s.control.pid;
    match s.control.report
    case None => HandledDeathGood(cfg, s, WaitReplyOf(s, now), p);
    case Some(r) =>
      if s.procs[p].Dead() {
        HandledGone(cfg, s, now, p, r);
      } else {
        HandleLivingGood(cfg, s, now, p, r);
        HandledStopGood(cfg, s, WaitReplyOf(s, now), p, r, HandleOutcome(cfg, s, now));
      }
  }

  lemma NoChildGood(cfg: Config, s: Sys)
    requires Good(cfg, s) && Enabled(s, NoChild)
    ensures Good(cfg, Apply(cfg, s, NoChild))
    ensures Apply(cfg, s, NoChild).run.finished == Some(Ok(()))
  {
  }

  lemma {:induction false} ReachGood(cfg: Config, start: Start, acts: seq<Action>)
    requires Reach(cfg, start, acts).Some?
    ensures Good(cfg, Reach(cfg, start, acts).value)
  {
    if |acts| == 0 {
      InitGood(cfg, start);
    } else {
      ReachGood(cfg, start, acts[..|acts| - 1]);
      var s := Reach(cfg, start, acts[..|acts| - 1]).value;
      match acts[|acts| - 1]
      case StopAt(p, r) => StopAtGood(cfg, s, p, r);
      case Die(p, cause) => DieGood(cfg, s, p, cause);
      case Wait(p) => WaitGood(cfg, s, p);
      case Handle(now) => HandleGood(cfg, s, now);
      case KilledMidway(now, cause) => KilledMidwayGood(cfg, s, now, cause);
      case NoChild => NoChildGood(cfg, s);
      case Interrupt =>
      case WaitFails(_) =>
    }
  }

  // ------------------------------------------------------------ results

  /** A reachable state whose loop has not come out with an error. */
  ghost predicate Reachable(cfg: Config, s: Sys) {
    exists start, acts :: Reach(cfg, start, acts) == Some(s) && !(s.run.finished.Some? && s.run.finished.value.Err?)
  }

  lemma ReachableInv(cfg: Config, s: Sys)
    requires Reachable(cfg, s)
    ensures Inv(cfg, s) && Ended(s)
  {
    var start, acts :| Reach(cfg, start, acts) == Some(s) && !(s.run.finished.Some? && s.run.finished.value.Err?);
    ReachGood(cfg, start, acts);
  }

  /**
   The tracer knows where every process is: for a process with no report outstanding, the
   phase is Exit with a call's number and arguments exactly when the process is inside that
   call, a stop is owed to the skip exactly when it is finishing a successful exec, and it is
   Entry with none owed exactly when it is in user mode.
   */
  lemma ViewIsTruth(cfg: Config, s: Sys, p: Pid)
    requires Reachable(cfg, s)
    requires p in s.procs && !s.procs[p].Dead() && s.procs[p].Pending().None?
    ensures var t := View(s.run.tracees, p);
            var pos := s.procs[p].TruePos();
            && (forall nr, args :: pos == InSyscall(nr, args) <==>
                  t.phase.Exit? && t.phase.nr == nr && t.phase.args == args)
            && (t.skipNextSyscallStop <==> pos == ExecTail)
            && (t.phase.Entry? && !t.skipNextSyscallStop <==> pos == User)
            && (t.awaitingInitialSigstop <==> s.procs[p].owesSigstop)
  {
    ReachableInv(cfg, s);
  }

  /**
   In every run, ended or not and however it ended: every event joins the entry of a call with that call's own exit,
   and every call whose exit stop the tracer got at has its event, once and in order: of the root, or of all when
   following.
   */
  lemma EventsAreCompletedCalls(cfg: Config, start: Start, acts: seq<Action>)
    requires Reach(cfg, start, acts).Some?
    ensures var s := Reach(cfg, start, acts).value;
            Undated(s.run.events) == Visible(cfg, Completed(s.seen))
  {
    ReachGood(cfg, start, acts);
  }

  /** At the head of the loop no process is left stopped with its report read. */
  lemma NoneStranded(cfg: Config, s: Sys, p: Pid)
    requires Reachable(cfg, s) && s.control.Ready? && p in s.procs
    ensures s.procs[p].status.Running? || s.procs[p].status.Unread? || s.procs[p].Dead()
  {
    ReachableInv(cfg, s);
  }

  /** So the loop is never stuck: something can still happen, or waitpid has an answer. */
  lemma NeverStuck(cfg: Config, s: Sys)
    requires Reachable(cfg, s) && s.run.finished.None? && s.control.Ready?
    ensures Enabled(s, NoChild) || exists p :: Enabled(s, Wait(p)) || Enabled(s, StopAt(p, Signalled(Linux.SIGSTOP)))
  {
    ReachableInv(cfg, s);
    if s.procs != map[] {
      var p := SomeKey(s.procs);
      assert Enabled(s, Wait(p)) || Enabled(s, StopAt(p, Signalled(Linux.SIGSTOP)));
    }
  }

  lemma HandleFailsIff(cfg: Config, s: Sys, now: nat)
    requires Reachable(cfg, s) && Enabled(s, Handle(now))
    ensures var finished := Apply(cfg, s, Handle(now)).run.finished;
            if s.control.report.Some? && s.procs[s.control.pid].Dead() then finished == Some(Err(Ptrace(Linux.ESRCH)))
            else finished.None? || finished.value.Ok?
  {
    hide Reachable, Inv, EventsTrue;
    ReachableInv(cfg, s);
    match s.control.report
    case None =>
    case Some(r) =>
      if s.procs[s.control.pid].Dead() {
        HandledGone(cfg, s, now, s.control.pid, r);
      } else {
        HandleLivingGood(cfg, s, now, s.control.pid, r);
      }
  }

  /**
   What goes wrong at the n-th action, if anything does: the tracer comes to a stop whose process has been killed since
   waitpid reported it, or is killed while it is being handled, or waitpid fails.
   */
  function FaultAt(cfg: Config, start: Start, acts: seq<Action>, n: nat): Option<Errno>
    requires n < |acts|
  {
    match Reach(cfg, start, acts[..n])
    case None => None
    case Some(s) =>
      match acts[n]
      case Handle(_) =>
        if s.control.Handling? && s.control.report.Some? && s.control.pid in s.procs && s.procs[s.control.pid].Dead()
        then Some(Linux.ESRCH) else None
      case KilledMidway(_, _) => Some(Linux.ESRCH)
      case WaitFails(e) => Some(e)
      case _ => None
  }

  lemma StillRunning(cfg: Config, start: Start, acts: seq<Action>)
    requires Reach(cfg, start, acts).Some? && Reach(cfg, start, acts).value.run.finished.None?
    ensures Reachable(cfg, Reach(cfg, start, acts).value)
  {
  }

  lemma OneStepBack(cfg: Config, start: Start, acts: seq<Action>, m: nat)
    requires |acts| == m + 1 && Reach(cfg, start, acts).Some?
    ensures var before := Reach(cfg, start, acts[..m]);
            && before.Some? && before.value.run.finished.None? && Good(cfg, before.value) && Reachable(cfg, before.value)
            && Enabled(before.value, acts[m]) && Reach(cfg, start, acts) == Some(Apply(cfg, before.value, acts[m]))
  {
    hide Good, Reachable, Apply;
    ReachGood(cfg, start, acts[..m]);
    StillRunning(cfg, start, acts[..m]);
  }

  /** One action makes the loop fail exactly when it is such a fault, and with its errno. */
  lemma FailsAtFault(cfg: Config, start: Start, acts: seq<Action>, m: nat, e: Error)
    requires |acts| == m + 1 && Reach(cfg, start, acts).Some?
    ensures Reach(cfg, start, acts).value.run.finished == Some(Err(e)) <==> e.Ptrace? && FaultAt(cfg, start, acts, m) == Some(e.errno)
  {
    hide Inv, EventsTrue, Reachable, Reach;
    OneStepBack(cfg, start, acts, m);
    var s := Reach(cfg, start, acts[..m]).value;
    match acts[m]
    case Handle(now) => HandleFailsIff(cfg, s, now);
    case KilledMidway(now, cause) => KilledMidwayGood(cfg, s, now, cause);
    case NoChild => NoChildGood(cfg, s);
    case _ =>
  }

  lemma FaultAtPrefix(cfg: Config, start: Start, acts: seq<Action>, m: nat, n: nat)
    requires n < m <= |acts|
    ensures FaultAt(cfg, start, acts, n) == FaultAt(cfg, start, acts[..m], n)
  {
    assert acts[..m][..n] == acts[..n];
  }

  ghost predicate NoFault(cfg: Config, start: Start, acts: seq<Action>, m: nat)
    requires m <= |acts|
  {
    forall n :: 0 <= n < m ==> FaultAt(cfg, start, acts, n) == None
  }

  lemma NoFaultOnward(cfg: Config, start: Start, acts: seq<Action>, m: nat)
    requires |acts| == m + 1 && NoFault(cfg, start, acts[..m], m)
    ensures NoFault(cfg, start, acts, m)
    ensures FaultAt(cfg, start, acts, m) == None ==> NoFault(cfg, start, acts, |acts|)
  {
    hide FaultAt;
    forall n | 0 <= n < m ensures FaultAt(cfg, start, acts, n) == None {
      FaultAtPrefix(cfg, start, acts, m, n);
    }
  }

  /** While the loop runs, nothing has gone wrong. */
  lemma {:induction false} RunningMeansNoFault(cfg: Config, start: Start, acts: seq<Action>)
    requires Reach(cfg, start, acts).Some? && Reach(cfg, start, acts).value.run.finished.None?
    ensures NoFault(cfg, start, acts, |acts|)
  {
    if |acts| > 0 {
      hide Reach, FaultAt, Good, Reachable, NoFault, Apply, Enabled;
      var m := |acts| - 1;
      OneStepBack(cfg, start, acts, m);
      RunningMeansNoFault(cfg, start, acts[..m]);
      var fault := FaultAt(cfg, start, acts, m);
      FailsAtFault(cfg, start, acts, m, Ptrace(if fault.Some? then fault.value else 0));
      NoFaultOnward(cfg, start, acts, m);
    }
  }

  /** What goes wrong before the loop, if anything does: the root is killed before the first resume. */
  function FirstFault(start: Start): Option<Errno> { if start.Accepted? then None else Some(Linux.ESRCH) }

  /** A loop whose first resume fails goes no further. */
  lemma {:induction false} KilledStart(cfg: Config, start: Start, acts: seq<Action>)
    requires Reach(cfg, start, acts).Some? && start.RootKilled?
    ensures acts == [] && Reach(cfg, start, acts).value.run.finished == Some(Err(Ptrace(Linux.ESRCH)))
  {
    if |acts| > 0 {
      KilledStart(cfg, start, acts[..|acts| - 1]);
      assert false;
    }
  }

  /**
   A run ends in an error exactly when one of these faults happened, at the first resume or later, and the error
   carries its errno.
   */
  lemma FailsOnlyOnFault(cfg: Config, start: Start, acts: seq<Action>, e: Error)
    requires Reach(cfg, start, acts).Some?
    ensures Reach(cfg, start, acts).value.run.finished == Some(Err(e))
       <==> && e.Ptrace?
            && (|| FirstFault(start) == Some(e.errno)
                || exists n :: 0 <= n < |acts| && FaultAt(cfg, start, acts, n) == Some(e.errno))
  {
    if start.RootKilled? {
      KilledStart(cfg, start, acts);
    } else if |acts| > 0 {
      hide Reach, FaultAt;
      FailsInLoop(cfg, start, acts, |acts| - 1, e);
    }
  }

  lemma FailsInLoop(cfg: Config, start: Start, acts: seq<Action>, m: nat, e: Error)
    requires |acts| == m + 1 && Reach(cfg, start, acts).Some?
    ensures Reach(cfg, start, acts).value.run.finished == Some(Err(e))
       <==> e.Ptrace? && exists n :: 0 <= n < |acts| && FaultAt(cfg, start, acts, n) == Some(e.errno)
  {
    hide Reach, FaultAt, Good, Reachable, Apply, Enabled;
    OneStepBack(cfg, start, acts, m);
    RunningMeansNoFault(cfg, start, acts[..m]);
    NoFaultOnward(cfg, start, acts, m);
    FailsAtFault(cfg, start, acts, m, e);
  }

  lemma FaultErrno(cfg: Config, start: Start, acts: seq<Action>, n: nat)
    requires n < |acts| && FaultAt(cfg, start, acts, n).Some?
    ensures FaultAt(cfg, start, acts, n).value == Linux.ESRCH || acts[n] == WaitFails(FaultAt(cfg, start, acts, n).value)
  {
  }

  /**
   The loop never returns TraceeGone, stale entries or not: it returns Ok, or the ESRCH of a process killed under its
   hands, or the errno of a failing waitpid.
   */
  lemma NeverTraceeGone(cfg: Config, start: Start, acts: seq<Action>)
    requires Reach(cfg, start, acts).Some? && Reach(cfg, start, acts).value.run.finished.Some?
    ensures var result := Reach(cfg, start, acts).value.run.finished.value;
            || result == Ok(())
            || result == Err(Ptrace(Linux.ESRCH))
            || exists n :: 0 <= n < |acts| && acts[n].WaitFails? && result == Err(Ptrace(acts[n].errno))
  {
    var result := Reach(cfg, start, acts).value.run.finished.value;
    hide Reach, FaultAt;
    if result.Err? {
      FailsOnlyOnFault(cfg, start, acts, result.error);
      if FirstFault(start) != Some(result.error.errno) {
        var n :| 0 <= n < |acts| && FaultAt(cfg, start, acts, n) == Some(result.error.errno);
        FaultErrno(cfg, start, acts, n);
      }
    }
  }

  lemma NamersAreInMap(cfg: Config, s: Sys, q: Pid, child: Pid)
    requires Inv(cfg, s) && Announces(s.procs, q, child)
    ensures q in s.run.tracees
  {
    assert Matches(View(s.run.tracees, q), s.procs[q].pos, s.procs[q].owesSigstop);
  }

  /**
   When the loop returns Ok, the processes still alive are children whose parent died at the
   fork stop that named them, before the tracer handled it.
   */
  lemma OkLeavesOnlyLost(cfg: Config, s: Sys)
    requires Reachable(cfg, s) && s.run.finished == Some(Ok(()))
    ensures s.procs.Keys <= s.lost
    ensures s.lost == {} ==> s.procs == map[]
  {
    ReachableInv(cfg, s);
    forall p | p in s.procs ensures p in s.lost {
      forall q ensures !Announces(s.procs, q, p) {
        if Announces(s.procs, q, p) {
          NamersAreInMap(cfg, s, q, p);
        }
      }
    }
  }

  lemma Extend(cfg: Config, start: Start, acts: seq<Action>, s: Sys, a: Action)
    requires Reach(cfg, start, acts) == Some(s) && Enabled(s, a)
    ensures Reach(cfg, start, acts + [a]) == Some(Apply(cfg, s, a))
  {
    assert (acts + [a])[..|acts|] == acts;
  }

  /** The root makes a stop and waitpid reports it. */
  lemma StopAndWait(cfg: Config, start: Start, acts: seq<Action>, s: Sys, r: Report) returns (acts': seq<Action>, s': Sys)
    requires Reach(cfg, start, acts) == Some(s) && s.control.Ready? && s.run.finished.None?
    requires cfg.rootPid in s.procs && s.procs[cfg.rootPid].status.Running? && Legal(s.procs[cfg.rootPid].pos, r)
    requires !r.Forked?
    ensures Reach(cfg, start, acts') == Some(s')
    ensures s' == s.(procs := s.procs[cfg.rootPid := s.procs[cfg.rootPid].(status := Read(r))],
                     control := Handling(cfg.rootPid, Some(r)))
  {
    var p := cfg.rootPid;
    var s1 := Apply(cfg, s, StopAt(p, r));
    Extend(cfg, start, acts, s, StopAt(p, r));
    Extend(cfg, start, acts + [StopAt(p, r)], s1, Wait(p));
    acts' := acts + [StopAt(p, r)] + [Wait(p)];
    s' := Apply(cfg, s1, Wait(p));
  }

  /** The root makes a stop and the tracer handles it. */
  lemma StopAndHandle(cfg: Config, start: Start, acts: seq<Action>, s: Sys, r: Report) returns (acts': seq<Action>, s': Sys)
    requires Reach(cfg, start, acts) == Some(s) && s.control.Ready? && s.run.finished.None?
    requires cfg.rootPid in s.procs && s.procs[cfg.rootPid].status.Running? && Legal(s.procs[cfg.rootPid].pos, r)
    requires !r.Forked?
    ensures Reach(cfg, start, acts') == Some(s') && s'.control.Ready? && s'.run.finished.None?
    ensures s'.procs == s.procs[cfg.rootPid := Proc(Running, PositionAfter(s.procs[cfg.rootPid].pos, r),
                                                    StillOwes(s.procs[cfg.rootPid].owesSigstop, r))]
    ensures s'.used == s.used
  {
    var acts2, s2 := StopAndWait(cfg, start, acts, s, r);
    ReachGood(cfg, start, acts2);
    HandleLivingGood(cfg, s2, 0, cfg.rootPid, r);
    HandledAtStop(cfg, s2, WaitReplyOf(s2, 0), cfg.rootPid, r, HandleOutcome(cfg, s2, 0));
    Extend(cfg, start, acts2, s2, Handle(0));
    acts' := acts2 + [Handle(0)];
    s' := Apply(cfg, s2, Handle(0));
  }

  lemma HandledAtStop(cfg: Config, s: Sys, w: WaitReply, p: Pid, r: Report, o: Outcome)
    requires AtStop(cfg, s, p, r, o) && Ended(s)
    ensures var t := Handled(s, w, o);
            && t.control.Ready? && t.run.finished.None? && t.used == s.used
            && t.procs == s.procs[p := Proc(Running, PositionAfter(s.procs[p].pos, r), StillOwes(s.procs[p].owesSigstop, r))]
  {
    ResumedOne(s.procs, o.resumed, p, r);
    var k := SomeKey(s.run.tracees);
    assert k in o.tracees;
  }

  /** That does happen: the root forks, and is killed at the fork stop; the loop returns Ok and the child lives. */
  lemma OkCanLeaveALostChild()
    ensures exists cfg, s :: Reachable(cfg, s) && s.run.finished == Some(Ok(())) && s.procs != map[]
  {
    var cfg, start := Config(1, true), Accepted;
    var regs := Regs(57, [], 0);
    assert 1 in Init(cfg, start).run.tracees;
    var acts, s := StopAndHandle(cfg, start, [], Init(cfg, start), ExecExit(regs));
    acts, s := StopAndHandle(cfg, start, acts, s, SyscallEntry(regs));
    assert s.procs == map[1 := Proc(Running, InSyscall(57, []), false)] && s.used == {1};
    ReachGood(cfg, start, acts);
    assert s.run.tracees.Keys == {1};
    ForkAndKill(cfg, start, acts, s);
  }

  lemma ForkAndKill(cfg: Config, start: Start, acts: seq<Action>, s: Sys)
    requires cfg == Config(1, true) && Reach(cfg, start, acts) == Some(s) && s.control.Ready? && s.run.finished.None?
    requires s.procs == map[1 := Proc(Running, InSyscall(57, []), false)] && s.used == {1} && s.run.tracees.Keys == {1}
    ensures exists t :: Reachable(cfg, t) && t.run.finished == Some(Ok(())) && t.procs != map[]
  {
    var fork, kill := StopAt(1, Forked(1, 2)), Die(1, Some(9));
    var s1 := Apply(cfg, s, fork);
    Extend(cfg, start, acts, s, fork);
    Extend(cfg, start, acts + [fork], s1, kill);
    var procs := map[1 := Proc(Zombie(Some(9)), InSyscall(57, []), false), 2 := Proc(Running, User, true)];
    assert Apply(cfg, s1, kill).procs == procs;
    ReapTheRoot(cfg, start, acts + [fork] + [kill], Apply(cfg, s1, kill));
  }

  lemma ReapTheRoot(cfg: Config, start: Start, acts: seq<Action>, s: Sys)
    requires cfg == Config(1, true) && Reach(cfg, start, acts) == Some(s) && s.control.Ready? && s.run.finished.None?
    requires s.procs.Keys == {1, 2} && s.procs[1].Dead() && s.run.tracees.Keys == {1}
    ensures exists t :: Reachable(cfg, t) && t.run.finished == Some(Ok(())) && t.procs != map[]
  {
    Extend(cfg, start, acts, s, Wait(1));
    var s1 := Apply(cfg, s, Wait(1));
    Extend(cfg, start, acts + [Wait(1)], s1, Handle(0));
    var s2 := Apply(cfg, s1, Handle(0));
    assert s.run.tracees - {1} == map[];
    assert 2 in s1.procs && s2.procs == s1.procs;
    assert Reachable(cfg, s2);
  }
}
