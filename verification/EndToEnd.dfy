/** The parts put together: from the tracee's memory to the page, and from the kernel's syscalls to the page. */
module EndToEnd {
  import opened Prelude
  import opened TracerModel
  import opened Kernel
  import opened System
  import opened TraceeMemory
  import opened ArgvWalk
  import opened Text
  import opened Escape
  import opened Render
  import opened Terminal
  import opened Pretty
  import opened PrettyRuns
  import opened LineReader
  import opened PageReader
  import opened Sink
  import opened SinkRuns
  import opened Filters
  import Flags

  // From memory to the page.

  /** What the walk makes of an argv: all of it, or its first 64 strings and the overflow mark. */
  function ShownArgv(utf8: Utf8, strings: seq<seq<byte>>): seq<string> {
    if |strings| <= 63 then DecodedStrings(utf8, strings) else DecodedStrings(utf8, strings[..64]) + [SENTINEL_OVERFLOW]
  }

  /**
   * An argv laid out in the tracee's memory, of any length, whose walk is the k-th argument of the n-th event of a run:
   * what the walk shows of its strings can be read back, one by one, from the n-th line of the page.
   */
  lemma ArgvOnThePage(mem: Memory, lib: Library, addr: u64, strings: seq<seq<byte>>, ptrs: seq<u64>, cfg: Pretty.Config,
                      items: seq<Shown>, n: nat, k: nat)
    requires mem.refused.None? && PageGranular(mem) && |strings| == |ptrs| && Laid(mem, addr, strings, ptrs)
    requires n < |items| && k < |items[n].call.args|
    requires items[n].call.args[k].1 == Argv(ShownArgv(lib.utf8, strings))
    ensures Walk(ReaderOf(mem, lib.utf8), addr, MAX_ARGV, true) == Ok(ShownArgv(lib.utf8, strings))
    ensures var lines := LinesOf(RunText(Plain, cfg.(color := false), lib, items));
            && |lines| == |items|
            && var r := ReadLine(lines[n]);
               && r.Some? && k < |r.value.args|
               && ReadList(r.value.args[k]) == Some(ShownArgv(lib.utf8, strings))
  {
    hide Walk, ListText, ReadList, ReadLine, LinesOf, RunText, Laid;
    ArgvRoundTrip(mem, lib.utf8, addr, strings, ptrs);
    PageReadBack(cfg, lib, items, n);
    RenderAllAt(items[n].call.args, lib.utf8, k);
    ListReadBack(ShownArgv(lib.utf8, strings));
  }

  /**
   * The flags of an openat: the bits the table knows can be read off the page exactly when the printed names stand for
   * them, which is when the access mode is one of the three and O_TMPFILE's own bit does not stand alone.
   */
  lemma OpenFlagsOnThePage(lib: Library, cfg: Pretty.Config, items: seq<Shown>, n: nat, k: nat, flags: Flags.Word)
    requires n < |items| && k < |items[n].call.args|
    requires var arg := items[n].call.args[k].1; arg.FlagNames? && arg.names == Flags.Names(Flags.OpenFlags(flags))
    ensures var lines := LinesOf(RunText(Plain, cfg.(color := false), lib, items));
            && |lines| == |items|
            && var r := ReadLine(lines[n]);
               && r.Some? && k < |r.value.args|
               && (Flags.Meaning(ReadNames(r.value.args[k]), Flags.OPEN_DICT) == Flags.And(flags, Flags.KnownBits())
                   <==> && Flags.And(flags, Flags.O_ACCMODE) != {0, 1}
                        && Flags.And(flags, Flags.O_TMPFILE.mask) != {22})
  {
    hide ReadLine, LinesOf, RunText, RenderArg, ReadNames, Flags.Meaning, Flags.KnownBits, Flags.And, Flags.OpenFlags,
         Flags.Names;
    var names := items[n].call.args[k].1.names;
    PageReadBack(cfg, lib, items, n);
    RenderAllAt(items[n].call.args, lib.utf8, k);
    Flags.PrintedNamesAreNames(flags);
    assert |names| > 0 ==> |names[0]| > 1;
    FlagNamesReadBack(names, lib.utf8);
    Flags.OpenFlagsLossless(flags);
  }

  // From the decoders to the page.

  /** The arguments the three lookup decoders make. */
  predicate OpenatShape(args: seq<(string, Arg)>) {
    |args| == 4 && args[0].1.FdArg? && LabelledPath(args[1]) && args[2].1.FlagNames? && args[3].1.Mode?
  }

  predicate StatxShape(args: seq<(string, Arg)>) {
    && |args| == 5 && args[0].1.FdArg? && LabelledPath(args[1])
    && args[2].1.FlagNames? && args[3].1.FlagNames? && args[4].1.Ptr?
  }

  predicate StatShape(args: seq<(string, Arg)>) { |args| == 2 && LabelledPath(args[0]) && args[1].1.Ptr? }

  /** The decoder of a lookup, if there is one for it, is one of these. */
  predicate FromRegistry(lib: Library, arrival: Arrival) {
    var name := lib.name(arrival.ev.nr);
    name in LOOKUPS && arrival.decoder.Some? && arrival.decoder.value.call.Some? ==>
      var args := arrival.decoder.value.call.value.args;
      || (name == "openat" && OpenatShape(args))
      || (name == "statx" && StatxShape(args))
      || (name == "stat" && StatShape(args))
  }

  lemma {:induction false} UintArgsAre(args: seq<u64>, n: nat)
    requires n <= 6
    ensures forall a :: a in UintArgs(args, n) ==> a.1.Uint?
    decreases 6 - n
  {
    if n < 6 {
      UintArgsAre(args, n + 1);
    }
  }

  /** What the sink hands to the printer keeps to the labels, whether a decoder made it or the fallback. */
  lemma DecodedIsLabelled(lib: Library, arrival: Arrival)
    requires FromRegistry(lib, arrival)
    ensures Labelled(NameOf(lib, Decoded(arrival)), Decoded(arrival).call)
  {
    hide UintArgs;
    UintArgsAre(arrival.ev.args, 0);
  }

  lemma {:induction false} PassingIsLabelled(run: Setup, stream: seq<Arrival>)
    requires forall a :: a in stream ==> FromRegistry(run.lib, a)
    ensures AllLabelled(run.lib, Passing(run, stream))
  {
    hide FromRegistry, Labelled, Passes, Decoded, NameOf;
    if |stream| > 0 {
      var last := stream[|stream| - 1];
      assert last in stream;
      PassingIsLabelled(run, stream[..|stream| - 1]);
      DecodedIsLabelled(run.lib, last);
    }
  }

  /** The sink's page in pretty form, coloured or not: the pid of every record can be read off what a terminal shows. */
  lemma SinkPageShowsPids(run: Setup, stream: seq<Arrival>)
    requires run.format.PrettyLines? && forall a :: a in stream ==> FromRegistry(run.lib, a)
    ensures var items := Passing(run, stream);
            var pids := ReadPids(Strip(FullText(run, items)));
            |pids| == |items| && forall n :: 0 <= n < |items| ==> pids[n] == Some(items[n].ev.pid)
  {
    hide ReadPids, Strip, AllLabelled, Passing, FullText, RunText, FromRegistry;
    PassingIsLabelled(run, stream);
    PageIsPrettyRun(run, Passing(run, stream));
    PidsOnTheTerminal(run.theme, run.cfg, run.lib, Passing(run, stream));
  }

  lemma {:induction false} RefusesNothing(run: Setup, items: seq<Shown>)
    requires run.format.PrettyLines?
    ensures BeforeRefusal(run, items) == |items|
  {
    if |items| > 0 {
      RefusesNothing(run, items[..|items| - 1]);
    }
  }

  /**
   * And of a page that was cut short: what got out says of every record before the cut who made the call, what its
   * arguments were and what it returned, coloured or not.
   */
  lemma TornPageReadBack(run: Setup, room: Room, fault: IoError, stream: seq<Arrival>) returns (n: nat)
    requires run.format.PrettyLines? && forall a :: a in stream ==> FromRegistry(run.lib, a)
    ensures n <= |Passing(run, stream)|
    ensures n == |Passing(run, stream)| <==> Fits(room, FullText(run, Passing(run, stream)))
    ensures n < |Passing(run, stream)| ==> !Fits(room, FullText(run, Passing(run, stream)[..n + 1]))
    ensures var items := Passing(run, stream);
            var lines := LinesOf(Strip(PageAfter(run, room, fault, items).text));
            && n <= |lines|
            && forall i :: 0 <= i < n ==>
                 && PidOf(lines, i) == Some(items[i].ev.pid)
                 && ReadLine(lines[i]) == Some(ReadingOf(run.lib, items[i]))
  {
    hide Passing, FullText, RunText, FromRegistry, PageAfter, LinesOf, Strip, PidOf, ReadLine, AllLabelled, ReadingOf,
         BeforeRefusal;
    var items := Passing(run, stream);
    var torn: string;
    n, torn := WrittenInFull(run, room, fault, items);
    RefusesNothing(run, items);
    RefusesNothing(run, items[..if n < |items| then n + 1 else n]);
    PageIsPrefix(run, room, fault, items);
    PageIsPrefix(run, room, fault, items[..if n < |items| then n + 1 else n]);
    assert items[..|items|] == items;
    assert n < |items| ==> items[..n + 1][..n + 1] == items[..n + 1];
    PassingIsLabelled(run, stream);
    FrontIsLabelled(run.lib, items, n);
    PageIsPrettyRun(run, items[..n]);
    if n > 0 {
      FrontReadBack(run.theme, run.cfg, run.lib, items[..n], torn, 0);
    }
    forall i | 0 <= i < n
      ensures var lines := LinesOf(Strip(PageAfter(run, room, fault, items).text));
              && n <= |lines| && PidOf(lines, i) == Some(items[i].ev.pid)
              && ReadLine(lines[i]) == Some(ReadingOf(run.lib, items[i]))
    {
      FrontReadBack(run.theme, run.cfg, run.lib, items[..n], torn, i);
    }
  }

  lemma FrontIsLabelled(lib: Library, items: seq<Shown>, n: nat)
    requires AllLabelled(lib, items) && n <= |items|
    ensures AllLabelled(lib, items[..n])
  {
    assert forall x :: x in items[..n] ==> x in items;
  }

  // The filter, seen on the page.

  /** A line that the options ask for, as far as the line itself can tell. */
  ghost predicate LineWanted(run: Setup, r: Reading) {
    && (run.filter.onlyFail ==> r.ret < 0)
    && (run.filter.syscalls.Some? ==> exists p :: p in run.filter.syscalls.value && run.globs.hit(p, r.name))
    && (run.filter.paths.Some? ==>
          exists k, p :: 0 <= k < |r.args| && ReadPath(r.args[k]).Some? && p in run.filter.paths.value
                         && run.globs.hit(p, ReadPath(r.args[k]).value))
  }

  lemma WantedLine(run: Setup, x: Shown)
    requires Wanted(run, x)
    ensures LineWanted(run, ReadingOf(run.lib, x))
  {
    hide RenderArg, RenderAll, ReadPath;
    if run.filter.paths.Some? {
      var i, p :| 0 <= i < |x.call.args| && x.call.args[i].1.Path? && p in run.filter.paths.value
                  && run.globs.hit(p, x.call.args[i].1.text);
      RenderAllAt(x.call.args, run.lib.utf8, i);
      PathShown(x.call.args[i].1, run.lib.utf8);
      assert ReadPath(ReadingOf(run.lib, x).args[i]) == Some(x.call.args[i].1.text);
    }
  }

  lemma PathShown(arg: Arg, utf8: Utf8)
    requires arg.Path?
    ensures ReadPath(RenderArg(arg, utf8)) == Some(arg.text)
  {
    PathReadBack(arg.text);
  }

  /**
   * On the terminal, coloured or not, there is one line for each record, every line says what the options ask for, and
   * each event of the stream that they ask for has its line.
   */
  lemma PageShowsWhatIsWanted(run: Setup, stream: seq<Arrival>)
    requires run.format.PrettyLines?
    ensures var lines := LinesOf(Strip(FullText(run, Passing(run, stream))));
            && |lines| == |Passing(run, stream)|
            && (forall n :: 0 <= n < |lines| ==> ReadLine(lines[n]).Some? && LineWanted(run, ReadLine(lines[n]).value))
            && (forall a :: a in stream && Wanted(run, Decoded(a)) ==>
                  exists n :: 0 <= n < |lines| && ReadLine(lines[n]) == Some(ReadingOf(run.lib, Decoded(a))))
  {
    hide Passing, Wanted, LineWanted, ReadLine, LinesOf, Strip, FullText, RunText, ReadingOf, Decoded;
    var items := Passing(run, stream);
    PassingIsWanted(run, stream);
    PageIsPrettyRun(run, items);
    TerminalShows(run.theme, run.cfg, run.lib, items, "");
    assert FullText(run, items) + "" == FullText(run, items);
    assert RunText(Plain, run.cfg.(color := false), run.lib, items) + Strip("")
        == RunText(Plain, run.cfg.(color := false), run.lib, items) by { StripNothing(); }
    var lines := LinesOf(Strip(FullText(run, items)));
    PageLines(run.cfg, run.lib, items);
    forall n | 0 <= n < |items|
      ensures ReadLine(lines[n]) == Some(ReadingOf(run.lib, items[n])) && LineWanted(run, ReadingOf(run.lib, items[n]))
    {
      PageReadBack(run.cfg, run.lib, items, n);
      assert items[n] in items;
      WantedLine(run, items[n]);
    }
    forall a | a in stream && Wanted(run, Decoded(a))
      ensures exists n :: 0 <= n < |lines| && ReadLine(lines[n]) == Some(ReadingOf(run.lib, Decoded(a)))
    {
      var n :| 0 <= n < |items| && items[n] == Decoded(a);
      assert ReadLine(lines[n]) == Some(ReadingOf(run.lib, Decoded(a)));
    }
  }

  lemma StripNothing()
    ensures Strip("") == ""
  {
  }

  /** In JSON form the lines of the page are the objects, one for each record. */
  lemma {:induction false} JsonPageLines(run: Setup, items: seq<Shown>)
    requires run.format.JsonLines? && forall x :: x in items ==> NoNewline(run.json(x.ev, x.call))
    ensures var lines := LinesOf(FullText(run, items));
            && |lines| == |items|
            && forall n :: 0 <= n < |items| ==> lines[n] == run.json(items[n].ev, items[n].call) + "\n"
  {
    hide LinesOf;
    var objects := seq(|items|, n requires 0 <= n < |items| => run.json(items[n].ev, items[n].call) + "\n");
    JsonIsConcat(run, items, objects);
    forall l | l in objects ensures OneLine(l) {
      var n :| 0 <= n < |objects| && objects[n] == l;
      assert items[n] in items;
      assert l[..|l| - 1] == run.json(items[n].ev, items[n].call);
    }
    LinesOfConcat(objects, "");
    assert Concat(objects) + "" == Concat(objects);
    assert LinesOf("") == [] by { NoLines(); }
    assert objects + [] == objects;
  }

  lemma NoLines()
    ensures LinesOf("") == []
  {
  }

  lemma {:induction false} JsonIsConcat(run: Setup, items: seq<Shown>, objects: seq<string>)
    requires run.format.JsonLines? && |objects| == |items|
    requires forall n :: 0 <= n < |items| ==> objects[n] == run.json(items[n].ev, items[n].call) + "\n"
    ensures FullText(run, items) == Concat(objects)
  {
    hide Concat;
    if |items| == 0 {
      ConcatNothing();
    } else {
      var n := |items| - 1;
      JsonIsConcat(run, items[..n], objects[..n]);
      ConcatSnoc(objects[..n], objects[n]);
      assert objects == objects[..n] + [objects[n]];
    }
  }

  // From the kernel to the page.

  function CallOfEvent(e: SyscallEvent): TrueCall { TrueCall(e.pid, e.nr, e.args, e.ret) }

  /** The calls a list of records shows. */
  function CallsOf(items: seq<Shown>): seq<TrueCall> {
    if |items| == 0 then []
    else CallsOf(items[..|items| - 1]) + [CallOfEvent(items[|items| - 1].ev)]
  }

  /** The calls at the places where `mask` is set. */
  function Keep(calls: seq<TrueCall>, mask: seq<bool>): seq<TrueCall>
    requires |calls| == |mask|
  {
    if |calls| == 0 then []
    else
      var n := |calls| - 1;
      Keep(calls[..n], mask[..n]) + if mask[n] then [calls[n]] else []
  }

  /** Which arrivals the options ask for. */
  ghost function Mask(run: Setup, stream: seq<Arrival>): (mask: seq<bool>)
    ensures |mask| == |stream|
  {
    seq(|stream|, i requires 0 <= i < |stream| => Wanted(run, Decoded(stream[i])))
  }

  /** The sink was handed these events, each with what its decoder made of it. */
  ghost predicate Feeds(events: seq<SyscallEvent>, stream: seq<Arrival>) {
    |stream| == |events| && forall i :: 0 <= i < |stream| ==> stream[i].ev == events[i]
  }

  lemma CallsOfSnoc(items: seq<Shown>, x: Shown)
    ensures CallsOf(items + [x]) == CallsOf(items) + [CallOfEvent(x.ev)]
  {
    assert (items + [x])[..|items|] == items;
  }

  lemma {:induction false} UndatedLength(events: seq<SyscallEvent>)
    ensures |Undated(events)| == |events|
  {
    if |events| > 0 {
      UndatedLength(events[..|events| - 1]);
    }
  }

  lemma {:induction false} PassingIsKept(run: Setup, events: seq<SyscallEvent>, stream: seq<Arrival>)
    requires Feeds(events, stream)
    ensures |Undated(events)| == |stream|
    ensures CallsOf(Passing(run, stream)) == Keep(Undated(events), Mask(run, stream))
  {
    hide Passes, Wanted, CallsOf, Decoded;
    UndatedLength(events);
    if |stream| == 0 {
      NoCalls();
    } else {
      var n := |stream| - 1;
      PassesIffWanted(run, stream[n]);
      PassingIsKept(run, events[..n], stream[..n]);
      var calls, mask := Undated(events), Mask(run, stream);
      assert calls[..n] == Undated(events[..n]) && calls[n] == CallOfEvent(events[n]);
      assert mask[..n] == Mask(run, stream[..n]) && mask[n] == Wanted(run, Decoded(stream[n]));
      assert Decoded(stream[n]).ev == stream[n].ev by { DecodedKeepsEvent(stream[n]); }
      CallsOfSnoc(Passing(run, stream[..n]), Decoded(stream[n]));
    }
  }

  lemma NoCalls()
    ensures CallsOf([]) == []
  {
  }

  lemma DecodedKeepsEvent(arrival: Arrival)
    ensures Decoded(arrival).ev == arrival.ev
  {
  }

  /**
   * In every run of the tracer with the kernel, however it ended: the calls on the page are the completed calls of the
   * processes shown, in order and each once, less those that the options do not ask for.
   */
  lemma RecordsAreRealCalls(cfg: TracerModel.Config, start: Start, acts: seq<Action>, run: Setup, stream: seq<Arrival>)
    requires Reach(cfg, start, acts).Some? && Feeds(Reach(cfg, start, acts).value.run.events, stream)
    ensures var calls := Visible(cfg, Completed(Reach(cfg, start, acts).value.seen));
            && |calls| == |stream|
            && CallsOf(Passing(run, stream)) == Keep(calls, Mask(run, stream))
  {
    hide Reach, Passing, Visible, Undated, Completed, CallsOf, Keep, Mask;
    EventsAreCompletedCalls(cfg, start, acts);
    PassingIsKept(run, Reach(cfg, start, acts).value.run.events, stream);
  }
}
