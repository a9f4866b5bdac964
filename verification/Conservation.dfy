/** The results of TracerStreams hold of every run of the tracer with the kernel. */
module Conservation {
  import opened Prelude
  import opened TracerModel
  import Linux
  import opened TracerStreams
  import opened Kernel
  import opened System

  function Root(cfg: Config): Tracees { map[cfg.rootPid := NewRoot()] }

  function StreamOf(s: Sys): seq<Stop> { Statuses(s.script) }

  /** One action is no step of the loop, or one step on the last thing in the script. */
  lemma ActionIsLoopStep(cfg: Config, s: Sys, a: Action)
    requires Enabled(s, a)
    ensures var t := Apply(cfg, s, a);
            || (t.script == s.script && t.run == s.run)
            || (&& |t.script| == |s.script| + 1 && t.script[..|s.script|] == s.script
                && t.run == LoopStep(cfg, s.run, t.script[|s.script|]))
  {
    hide Step, Resumed, Legal, Applied, AtLoopHead;
    match a
    case Handle(now) =>
      assert (s.script + [WaitReplyOf(s, now)])[..|s.script|] == s.script;
    case _ =>
  }

  /** The tracer in the system is the wait loop, run on what the kernel answered. */
  lemma {:induction false} SystemRunsTheLoop(cfg: Config, start: Start, acts: seq<Action>)
    requires Reach(cfg, start, acts).Some?
    ensures var s := Reach(cfg, start, acts).value;
            s.run == RunOn(cfg, Root(cfg), FirstAnswer(start), s.script)
  {
    if |acts| > 0 {
      hide Apply, LoopStep;
      SystemRunsTheLoop(cfg, start, acts[..|acts| - 1]);
      ActionIsLoopStep(cfg, Reach(cfg, start, acts[..|acts| - 1]).value, acts[|acts| - 1]);
    }
  }

  lemma StatusesSnoc(script: seq<WaitReply>, w: WaitReply)
    ensures Statuses(script + [w]) == Statuses(script) + if w.Status? then [Stop(w.status, w.reply)] else []
  {
    assert (script + [w])[..|script|] == script;
  }

  lemma OwnHistorySnoc(stream: seq<Stop>, stop: Stop, p: Pid)
    ensures OwnHistory(stream + [stop], p) == OwnHistory(stream, p) + if Concerns(stop.status, p) then [stop] else []
  {
    assert (stream + [stop])[..|stream|] == stream;
  }

  lemma HistoryGrows(s: Sys, t: Sys, w: WaitReply, p: Pid)
    requires t.script == s.script + [w] && w.Status?
    ensures OwnHistory(StreamOf(t), p)
         == OwnHistory(StreamOf(s), p) + if Concerns(w.status, p) then [Stop(w.status, w.reply)] else []
  {
    StatusesSnoc(s.script, w);
    OwnHistorySnoc(StreamOf(s), Stop(w.status, w.reply), p);
  }

  // ------------------------------------------------ the loop and its fold

  lemma KeptOn(cfg: Config, r: RunState, script: seq<WaitReply>, w: WaitReply)
    requires r.finished.None? && Kept(cfg, r, Fold(cfg, Root(cfg), Statuses(script)))
    ensures Kept(cfg, LoopStep(cfg, r, w), Fold(cfg, Root(cfg), Statuses(script + [w])))
  {
    hide Step, OwnHistory, AtLoopHead;
    var stops := Statuses(script);
    var before := Fold(cfg, Root(cfg), stops);
    StatusesSnoc(script, w);
    match w
    case WaitFailed(_) => assert stops + [] == stops;
    case Status(status, reply) =>
      var stop := Stop(status, reply);
      assert (stops + [stop])[..|stops|] == stops;
      AppliedIsThen(cfg, r, before, StepOn(cfg, r.tracees, stop));
  }

  /** The loop's map, events and resumes are those of all statuses it was given, whether it has ended or not. */
  lemma {:induction false} RunKept(cfg: Config, start: Start, acts: seq<Action>)
    requires Reach(cfg, start, acts).Some? && start.Accepted?
    ensures var s := Reach(cfg, start, acts).value; Kept(cfg, s.run, Fold(cfg, Root(cfg), StreamOf(s)))
  {
    hide Apply, LoopStep, Kept;
    if |acts| == 0 {
      KeptAtStart(cfg);
    } else {
      var s, t := Reach(cfg, start, acts[..|acts| - 1]).value, Reach(cfg, start, acts).value;
      RunKept(cfg, start, acts[..|acts| - 1]);
      ActionIsLoopStep(cfg, s, acts[|acts| - 1]);
      if t.script != s.script {
        var w := t.script[|s.script|];
        assert t.script == s.script + [w];
        KeptOn(cfg, s.run, s.script, w);
      }
    }
  }

  lemma KeptAtStart(cfg: Config)
    ensures Kept(cfg, Init(cfg, Accepted).run, Fold(cfg, Root(cfg), StreamOf(Init(cfg, Accepted))))
  {
  }

  // -------------------------------------------------- whole histories

  /** The history of a process that is gone: nothing after its death, and nothing went wrong before. */
  ghost predicate Departed(history: seq<Stop>) {
    |history| > 0 && IsDeath(history[|history| - 1].status) && Smooth(history[..|history| - 1])
  }

  /** The stops of a history, without the death it may end in. */
  function StopsOf(history: seq<Stop>): seq<Stop> {
    if |history| > 0 && IsDeath(history[|history| - 1].status) then history[..|history| - 1] else history
  }

  /** Only fork, exec and other events: nothing that would have put an unknown process into the map. */
  ghost predicate OnlyEvents(history: seq<Stop>) {
    forall x :: x in history ==> x.status.PtraceEvent?
  }

  ghost predicate HistoryFits(s: Sys, p: Pid) {
    var history := OwnHistory(StreamOf(s), p);
    && (if p !in s.used then history == []
        else if p in s.procs || Reaping(s, p) then Smooth(history)
        else Departed(history))
    && (p in s.procs && p !in s.run.tracees ==> OnlyEvents(history))
  }

  /** What is true of the statuses handled so far. */
  ghost predicate StreamGood(cfg: Config, s: Sys) {
    && s.lost <= s.used
    && (s.run.finished.Some? ==> s.control.Ready?)
    && (forall p :: HistoryFits(s, p))
    && (forall p :: ExecsRegistered(cfg, Root(cfg), StreamOf(s), p))
  }

  lemma ExecsRegisteredSnoc(cfg: Config, stream: seq<Stop>, stop: Stop, p: Pid)
    requires ExecsRegistered(cfg, Root(cfg), stream, p)
    requires IsExecOf(stop.status, p) ==> p in Fold(cfg, Root(cfg), stream).tracees
    ensures ExecsRegistered(cfg, Root(cfg), stream + [stop], p)
  {
    var longer := stream + [stop];
    forall i | 0 <= i < |longer| && IsExecOf(longer[i].status, p)
      ensures p in Fold(cfg, Root(cfg), longer[..i]).tracees
    {
      assert longer[..i] == stream[..i];
      assert i == |stream| ==> stream[..i] == stream;
    }
  }

  lemma SmoothSnoc(history: seq<Stop>, stop: Stop)
    requires Smooth(history)
    ensures Smooth([stop]) && stop in [stop] ==> Smooth(history + [stop])
    ensures IsDeath(stop.status) ==> Departed(history + [stop])
  {
    assert (history + [stop])[..|history|] == history;
  }

  /** One more status of `p`, a stop of the living process or its death. */
  lemma HistoryFitsOn(s: Sys, t: Sys, w: WaitReply, p: Pid)
    requires HistoryFits(s, p) && t.script == s.script + [w] && w.Status? && t.used == s.used
    requires t.procs.Keys == s.procs.Keys && t.control.Ready?
    requires Concerns(w.status, p) ==> p in s.used && (p in s.procs || Reaping(s, p))
    requires Concerns(w.status, p) && p in s.procs ==>
               Smooth([Stop(w.status, w.reply)]) && (w.status.PtraceEvent? || p in t.run.tracees)
    requires Concerns(w.status, p) && p !in s.procs ==> IsDeath(w.status)
    requires !Concerns(w.status, p) ==> !Reaping(s, p) && (p in s.run.tracees ==> p in t.run.tracees)
    requires p in s.run.tracees && w.status.PtraceEvent? ==> p in t.run.tracees
    ensures HistoryFits(t, p)
  {
    hide StreamOf, OwnHistory, Smooth;
    var stop := Stop(w.status, w.reply);
    var before := OwnHistory(StreamOf(s), p);
    HistoryGrows(s, t, w, p);
    assert p in t.procs <==> p in s.procs by { assert p in t.procs.Keys <==> p in s.procs.Keys; }
    if Concerns(w.status, p) {
      SmoothSnoc(before, stop);
      assert stop in [stop];
    } else {
      assert before + [] == before;
    }
  }

  lemma {:induction false} ResumedKeys(procs: map<Pid, Proc>, resumed: seq<Resume>)
    ensures Resumed(procs, resumed).Keys == procs.Keys
  {
    if |resumed| > 0 {
      ResumedKeys(procs, resumed[..|resumed| - 1]);
    }
  }

  /** What a handler that goes through does to the map: a death removes its pid, nothing else removes any. */
  lemma StepKeepsPids(cfg: Config, tracees: Tracees, status: WaitStatus, reply: Reply, p: Pid)
    requires Smooth([Stop(status, reply)]) || IsDeath(status)
    ensures var o := Step(cfg, tracees, status, reply);
            && (p in tracees && !(IsDeath(status) && Concerns(status, p)) ==> p in o.tracees)
            && (Concerns(status, p) && !IsDeath(status) && !status.PtraceEvent? ==> p in o.tracees)
  {
  }

  lemma SmoothReply(p: Pid, r: Report, now: nat)
    ensures Smooth([Stop(StatusOf(p, r), ReplyAt(r, now))])
    ensures forall q :: Concerns(StatusOf(p, r), q) <==> q == p
    ensures !IsDeath(StatusOf(p, r))
  {
  }

  lemma HandleKeepsStream(cfg: Config, s: Sys, now: nat)
    requires Good(cfg, s) && StreamGood(cfg, s) && Enabled(s, Handle(now))
    requires s.run.tracees == Fold(cfg, Root(cfg), StreamOf(s)).tracees
    requires s.control.report.Some? ==> !s.procs[s.control.pid].Dead()
    ensures StreamGood(cfg, Apply(cfg, s, Handle(now)))
  {
    hide Step, Resumed, Fold, OwnHistory, ExecsRegistered, HistoryFits, Applied, Smooth, Inv, EventsTrue;
    var w, p, t := WaitReplyOf(s, now), s.control.pid, Apply(cfg, s, Handle(now));
    var o := HandleOutcome(cfg, s, now);
    ResumedKeys(s.procs, o.resumed);
    assert t.run.tracees == o.tracees by { AppliedKeeps(s.run, o); }
    PidInvolved(cfg, s, p);
    if s.control.report.Some? {
      SmoothReply(p, s.control.report.value, now);
    }
    forall q ensures HistoryFits(t, q) {
      StepKeepsPids(cfg, s.run.tracees, w.status, w.reply, q);
      HistoryFitsOn(s, t, w, q);
    }
    StatusesSnoc(s.script, w);
    forall q ensures ExecsRegistered(cfg, Root(cfg), StreamOf(t), q) {
      if IsExecOf(w.status, q) {
        ExecInMap(cfg, s);
      }
      ExecsRegisteredSnoc(cfg, StreamOf(s), Stop(w.status, w.reply), q);
    }
  }

  lemma AppliedKeeps(r: RunState, o: Outcome)
    ensures Applied(r, o).tracees == o.tracees
  {
  }

  lemma PidInvolved(cfg: Config, s: Sys, p: Pid)
    requires Inv(cfg, s) && s.control.Handling? && s.control.pid == p
    ensures p in s.used && (s.control.report.Some? ==> p in s.procs) && (s.control.report.None? ==> p !in s.procs)
  {
    assert p in s.procs ==> p in s.procs.Keys;
  }

  /** The process of an exec stop is in the map. */
  lemma ExecInMap(cfg: Config, s: Sys)
    requires Inv(cfg, s) && s.control.Handling? && s.control.report.Some? && !s.procs[s.control.pid].Dead()
    requires IsExec(StatusOf(s.control.pid, s.control.report.value))
    ensures s.control.pid in s.run.tracees
  {
    var p := s.control.pid;
    assert Matches(View(s.run.tracees, p), s.procs[p].pos, s.procs[p].owesSigstop);
  }

  /** Nothing has been handled; at most a process has died or gone to be reaped, or a new child has appeared. */
  lemma NoMoreStops(cfg: Config, s: Sys, t: Sys)
    requires StreamGood(cfg, s) && StreamOf(t) == StreamOf(s)
    requires s.used <= t.used && t.lost <= t.used && t.run.tracees == s.run.tracees
    requires t.run.finished.Some? ==> t.control.Ready?
    requires forall p :: p in t.procs ==> p in s.procs || p !in s.used
    requires forall p :: p in t.used && p !in s.used ==> p in t.procs
    requires forall p :: p in s.procs ==> p in t.procs || Reaping(t, p)
    requires forall p :: Reaping(t, p) ==> p in s.procs || Reaping(s, p)
    requires forall p :: Reaping(s, p) ==> Reaping(t, p)
    ensures StreamGood(cfg, t)
  {
    hide OwnHistory, ExecsRegistered, StreamOf, Smooth;
    assert Smooth([]) by { NothingIsSmooth(); }
    forall p ensures HistoryFits(t, p) {
      assert HistoryFits(s, p);
    }
  }

  lemma NothingIsSmooth()
    ensures Smooth([])
  {
  }

  lemma StepKeepsStream(cfg: Config, s: Sys, a: Action)
    requires Good(cfg, s) && StreamGood(cfg, s) && Enabled(s, a)
    requires s.run.tracees == Fold(cfg, Root(cfg), StreamOf(s)).tracees
    requires a.Handle? && s.control.report.Some? ==> !s.procs[s.control.pid].Dead()
    requires !a.KilledMidway? && !a.WaitFails?
    ensures StreamGood(cfg, Apply(cfg, s, a))
  {
    hide Good, StreamGood, HistoryFits;
    match a
    case Handle(now) => HandleKeepsStream(cfg, s, now);
    case _ => QuietKeepsStream(cfg, s, a);
  }

  lemma QuietKeepsStream(cfg: Config, s: Sys, a: Action)
    requires Good(cfg, s) && StreamGood(cfg, s) && Enabled(s, a)
    requires !a.Handle? && !a.KilledMidway? && !a.WaitFails?
    ensures StreamGood(cfg, Apply(cfg, s, a))
  {
    hide HistoryFits, Legal, ViewsMatch, ReportsLegal, StaleAreFresh, UnregisteredAreNamed, OpenCallsFit, EventsTrue,
         ExecsRegistered;
    match a
    case NoChild => StatusesSnoc(s.script, WaitFailed(Linux.ECHILD)); NoMoreStops(cfg, s, Apply(cfg, s, a));
    case Interrupt => StatusesSnoc(s.script, WaitFailed(Linux.EINTR)); NoMoreStops(cfg, s, Apply(cfg, s, a));
    case StopAt(p, r) => NoMoreStops(cfg, s, Apply(cfg, s, a));
    case Die(p, cause) =>
      var r := s.procs[p].Pending();
      assert r.Some? && r.value.Forked? ==> Announces(s.procs, p, r.value.child);
      NoMoreStops(cfg, s, Apply(cfg, s, a));
    case Wait(p) => NoMoreStops(cfg, s, Apply(cfg, s, a));
    case _ =>
  }

  lemma StreamGoodAtStart(cfg: Config)
    ensures StreamGood(cfg, Init(cfg, Accepted))
  {
    assert StreamOf(Init(cfg, Accepted)) == [];
  }

  lemma {:induction false} ReachKeepsStream(cfg: Config, start: Start, acts: seq<Action>)
    requires Reach(cfg, start, acts).Some?
    requires var f := Reach(cfg, start, acts).value.run.finished; f.None? || f.value.Ok?
    ensures StreamGood(cfg, Reach(cfg, start, acts).value) && start.Accepted?
  {
    hide StreamGood, Good, Apply;
    if start.RootKilled? {
      KilledStart(cfg, start, acts);
    }
    if |acts| == 0 {
      StreamGoodAtStart(cfg);
    } else {
      var before, a := acts[..|acts| - 1], acts[|acts| - 1];
      var s := Reach(cfg, start, before).value;
      ReachKeepsStream(cfg, start, before);
      ReachGood(cfg, start, before);
      RunKept(cfg, start, before);
      if a.Handle? && s.control.report.Some? && s.procs[s.control.pid].Dead() {
        HandledGone(cfg, s, a.now, s.control.pid, s.control.report.value);
      }
      if a.KilledMidway? {
        KilledMidwayGood(cfg, s, a.now, a.cause);
      }
      if a.WaitFails? {
        WaitFailureEnds(cfg, s, a.errno);
      }
      StepKeepsStream(cfg, s, a);
    }
  }

  lemma WaitFailureEnds(cfg: Config, s: Sys, e: Errno)
    requires Enabled(s, WaitFails(e))
    ensures Apply(cfg, s, WaitFails(e)).run.finished == Some(Err(Ptrace(e)))
  {
  }

  // ------------------------------------------------------------ results

  /** In every run that has not failed, an exec stop is of a process the tracer has in its map. */
  lemma ExecsAlwaysRegistered(cfg: Config, s: Sys, p: Pid)
    requires Reachable(cfg, s)
    ensures ExecsRegistered(cfg, Root(cfg), StreamOf(s), p)
  {
    ReachableStream(cfg, s);
  }

  lemma ReachableStream(cfg: Config, s: Sys)
    requires Reachable(cfg, s)
    ensures StreamGood(cfg, s) && Kept(cfg, s.run, Fold(cfg, Root(cfg), StreamOf(s)))
  {
    hide StreamGood, Kept;
    var start, acts :| Reach(cfg, start, acts) == Some(s) && !(s.run.finished.Some? && s.run.finished.value.Err?);
    ReachKeepsStream(cfg, start, acts);
    RunKept(cfg, start, acts);
  }

  /**
   When the loop returns Ok, exactly these processes are left: the children whose parent died at the fork stop that
   named them before the tracer handled it, and of which the tracer handled nothing that would have registered them
   (no syscall stop, no signal stop) nor their death.
   */
  lemma OkLeavesExactly(cfg: Config, s: Sys, c: Pid)
    requires Reachable(cfg, s) && s.run.finished == Some(Ok(()))
    ensures c in s.procs <==> c in s.lost && OnlyEvents(OwnHistory(StreamOf(s), c))
  {
    hide Reachable, OwnHistory, StreamOf, Smooth, ExecsRegistered;
    OkLeavesOnlyLost(cfg, s);
    ReachableStream(cfg, s);
    ReachableInv(cfg, s);
    assert HistoryFits(s, c);
    if c in s.procs {
      assert c in s.procs.Keys;
    } else if c in s.lost {
      var history := OwnHistory(StreamOf(s), c);
      assert Departed(history) && history[|history| - 1] in history;
    }
  }

  /** So it leaves nothing behind exactly when no lost child was only ever seen at events. */
  lemma OkLeavesNothingIff(cfg: Config, s: Sys)
    requires Reachable(cfg, s) && s.run.finished == Some(Ok(()))
    ensures s.procs == map[] <==> forall c :: c in s.lost ==> !OnlyEvents(OwnHistory(StreamOf(s), c))
  {
    hide Reachable, OnlyEvents, OwnHistory, StreamOf;
    forall c ensures c in s.procs <==> c in s.lost && OnlyEvents(OwnHistory(StreamOf(s), c)) {
      OkLeavesExactly(cfg, s, c);
    }
    if s.procs != map[] {
      var c := SomeKey(s.procs);
    }
  }

  lemma {:induction false} ResumesOfPrefix(first: Resume, rest: seq<Resume>, p: Pid)
    ensures ResumesOf([first] + rest, p) == (if first.pid == p then [first.sig] else []) + ResumesOf(rest, p)
  {
    ResumesOfConcat([first], rest, p);
    Singletons(SyscallEvent(0, 0, [], 0, 0), first, p);
  }

  /** A history is smooth up to the death it may end in. */
  lemma StopsAreSmooth(cfg: Config, s: Sys, p: Pid)
    requires StreamGood(cfg, s)
    ensures var history := OwnHistory(StreamOf(s), p);
            Smooth(StopsOf(history)) && (history == StopsOf(history) || Departed(history))
  {
    hide OwnHistory, StreamOf, ExecsRegistered;
    assert HistoryFits(s, p);
  }

  /** A death at the end of a history adds no resume and no reported signal. */
  lemma DeathAddsNothing(t: Tracee, history: seq<Stop>)
    ensures OwnRun(t, history).resumed == OwnRun(t, StopsOf(history)).resumed
    ensures Reported(history) == Reported(StopsOf(history))
  {
    if |history| > 0 && IsDeath(history[|history| - 1].status) {
      var before := history[..|history| - 1];
      assert OwnRun(t, before).resumed + [] == OwnRun(t, before).resumed;
      assert Reported(before) + [] == Reported(before);
    }
  }

  /** The resumes of one process, from its own history. */
  lemma ResumesFromHistory(cfg: Config, s: Sys, p: Pid)
    requires Reachable(cfg, s)
    ensures Smooth(StopsOf(OwnHistory(StreamOf(s), p)))
    ensures Reported(OwnHistory(StreamOf(s), p)) == Reported(StopsOf(OwnHistory(StreamOf(s), p)))
    ensures ResumesOf(s.run.resumes, p)
              == (if p == cfg.rootPid then [None] else [])
               + OwnRun(View(Root(cfg), p), StopsOf(OwnHistory(StreamOf(s), p))).resumed
  {
    hide StreamGood, OwnHistory, StreamOf, OwnRun, Fold, Smooth, StopsOf, Reported;
    ReachableStream(cfg, s);
    ExecsAlwaysRegistered(cfg, s, p);
    StopsAreSmooth(cfg, s, p);
    Projection(cfg, Root(cfg), StreamOf(s), p);
    DeathAddsNothing(View(Root(cfg), p), OwnHistory(StreamOf(s), p));
    ResumesOfPrefix(Resume(cfg.rootPid, None), Fold(cfg, Root(cfg), StreamOf(s)).resumed, p);
  }

  /**
   The signals re-injected into a process are those reported for it, in order: all of them for the root, all but the
   first SIGSTOP for a process that began as a child. It holds all through its life and after it, in every run that
   has not failed.
   */
  lemma SignalsConservedInRuns(cfg: Config, s: Sys, p: Pid)
    requires Reachable(cfg, s)
    ensures Injected(ResumesOf(s.run.resumes, p))
              == if p == cfg.rootPid then Reported(OwnHistory(StreamOf(s), p))
                 else WithoutFirst(Reported(OwnHistory(StreamOf(s), p)), Linux.SIGSTOP)
  {
    hide Reachable, StreamOf, OwnHistory, StopsOf, OwnRun, Smooth, Reported, Injected;
    ResumesFromHistory(cfg, s, p);
    OwnRunConservesSignals(View(Root(cfg), p), StopsOf(OwnHistory(StreamOf(s), p)));
    InjectedAfterStart(OwnRun(View(Root(cfg), p), StopsOf(OwnHistory(StreamOf(s), p))).resumed);
  }

  lemma InjectedAfterStart(answers: seq<Option<Signal>>)
    ensures Injected([None] + answers) == Injected(answers) && Injected([] + answers) == Injected(answers)
  {
    var start: seq<Option<Signal>> := [None];
    assert start[..0] == [];
    InjectedConcat(start, answers);
    InjectedConcat([], answers);
  }

  /** Leaves out the resume with which the loop begins. */
  function AfterStart(cfg: Config, answers: seq<Option<Signal>>, p: Pid): seq<Option<Signal>> {
    if p == cfg.rootPid && |answers| > 0 then answers[1..] else answers
  }

  /**
   A process is resumed once for every stop of it that was handled, in order (the root once more, when the loop
   begins), and not for its death. It holds all through its life and after it, in every run that has not failed.
   */
  lemma ResumesMatchStopsInRuns(cfg: Config, s: Sys, p: Pid)
    requires Reachable(cfg, s)
    ensures var stops := StopsOf(OwnHistory(StreamOf(s), p));
            var answers := AfterStart(cfg, ResumesOf(s.run.resumes, p), p);
            && |answers| == |stops|
            && forall i :: 0 <= i < |stops| ==> answers[i] == Answer(p != cfg.rootPid, stops, i)
  {
    hide Reachable, StreamOf, OwnHistory, OwnRun, Smooth, Answer, ResumesOf, Reported;
    var stops := StopsOf(OwnHistory(StreamOf(s), p));
    ResumesFromHistory(cfg, s, p);
    OnlyRealStops(StreamOf(s), p);
    OwnRunAnswers(View(Root(cfg), p), stops);
    var rest := OwnRun(View(Root(cfg), p), stops).resumed;
    assert ([None] + rest)[1..] == rest && [] + rest == rest;
  }

  lemma OnlyRealStops(stream: seq<Stop>, p: Pid)
    ensures forall x :: x in StopsOf(OwnHistory(stream, p)) ==> !x.status.Continued? && !x.status.StillAlive?
  {
    hide OwnHistory;
    OwnHistoryConcerns(stream, p);
  }
}
