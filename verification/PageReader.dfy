/**
 * The page of a run can be read back from its text alone: its lines, what each of them says, and the pid of every one
 * of them, burst lines included.
 */
module PageReader {
  import opened Prelude
  import opened TracerModel
  import opened Text
  import opened Escape
  import opened Render
  import opened Terminal
  import opened Pretty
  import opened PrettyRuns
  import opened LineReader

  // The reader.

  /** The length of the first line of a text, its newline included. */
  function FirstLine(s: string): (n: nat)
    ensures n <= |s| && (|s| > 0 ==> n > 0)
  {
    if |s| == 0 then 0 else if s[0] == '\n' then 1 else 1 + FirstLine(s[1..])
  }

  function LinesOf(page: string): seq<string>
    decreases |page|
  {
    if |page| == 0 then []
    else
      var n := FirstLine(page);
      [page[..n]] + LinesOf(page[n..])
  }

  predicate IsQuoted(text: string) { |text| > 0 && text[0] == '"' }

  /** The syscalls whose lines are lookups. */
  const LOOKUPS := ["openat", "open", "newfstatat", "access", "faccessat", "stat", "statx"]

  /** A line of a lookup whose path was decoded: its name is a lookup's and some argument of it is quoted. */
  predicate IsLookupLine(line: string) {
    var r := ReadLine(line);
    r.Some? && r.value.name in LOOKUPS && exists i :: 0 <= i < |r.value.args| && IsQuoted(r.value.args[i])
  }

  /** The pid on the latest lookup line that shows one. */
  function Carried(lines: seq<string>): Option<Pid> {
    if |lines| == 0 then None
    else
      var last := lines[|lines| - 1];
      if IsLookupLine(last) && ReadPid(last).Some? then ReadPid(last) else Carried(lines[..|lines| - 1])
  }

  /** The pid of a line: the one it shows, or the one carried down to it. */
  function PidOf(lines: seq<string>, n: nat): Option<Pid>
    requires n < |lines|
  {
    if ReadPid(lines[n]).Some? then ReadPid(lines[n]) else Carried(lines[..n])
  }

  function ReadPids(page: string): (pids: seq<Option<Pid>>) {
    var lines := LinesOf(page);
    seq(|lines|, n requires 0 <= n < |lines| => PidOf(lines, n))
  }

  // Lines.

  /** A text that ends in a newline and holds no other. */
  predicate OneLine(s: string) { |s| > 0 && s[|s| - 1] == '\n' && NoNewline(s[..|s| - 1]) }

  function Concat(lines: seq<string>): string {
    if |lines| == 0 then "" else lines[0] + Concat(lines[1..])
  }

  lemma {:induction false} FirstLineEnds(s: string, rest: string)
    requires OneLine(s)
    ensures FirstLine(s + rest) == |s|
  {
    var all := s + rest;
    if |s| > 1 {
      assert s[0] == s[..|s| - 1][0];
      assert s[1..][..|s[1..]| - 1] == s[..|s| - 1][1..];
      FirstLineEnds(s[1..], rest);
      assert all[1..] == s[1..] + rest;
    }
  }

  lemma LinesOfOneMore(first: string, rest: string)
    requires OneLine(first)
    ensures LinesOf(first + rest) == [first] + LinesOf(rest)
  {
    FirstLineEnds(first, rest);
    assert (first + rest)[..|first|] == first && (first + rest)[|first|..] == rest;
  }

  /** Whole lines are split off a text whatever follows them. */
  lemma {:induction false} LinesOfConcat(lines: seq<string>, rest: string)
    requires forall l :: l in lines ==> OneLine(l)
    ensures LinesOf(Concat(lines) + rest) == lines + LinesOf(rest)
  {
    hide OneLine, LinesOf;
    if |lines| == 0 {
      assert "" + rest == rest && lines + LinesOf(rest) == LinesOf(rest);
    } else {
      var first, more := lines[0], Concat(lines[1..]);
      assert first in lines;
      LinesOfConcat(lines[1..], rest);
      LinesOfOneMore(first, more + rest);
      assert first + more + rest == first + (more + rest);
      assert lines == [first] + lines[1..];
      assert [first] + (lines[1..] + LinesOf(rest)) == lines + LinesOf(rest);
    }
  }

  lemma {:induction false} ConcatSnoc(lines: seq<string>, last: string)
    ensures Concat(lines + [last]) == Concat(lines) + last
  {
    if |lines| == 0 {
      assert [] + [last] == [last];
      assert Concat([last]) == last + Concat([]);
    } else {
      ConcatSnoc(lines[1..], last);
      assert (lines + [last])[1..] == lines[1..] + [last];
      assert lines[0] + (Concat(lines[1..]) + last) == lines[0] + Concat(lines[1..]) + last;
    }
  }

  /** The lines a run prints, one for each event. */
  function RunLines(cfg: Pretty.Config, lib: Library, items: seq<Shown>): (lines: seq<string>)
    ensures |lines| == |items|
    ensures forall n :: 0 <= n < |items| ==> lines[n] == LineAt(Plain, cfg, lib, items, n)
  {
    seq(|items|, n requires 0 <= n < |items| => LineAt(Plain, cfg, lib, items, n))
  }

  lemma RunLinesPrefix(cfg: Pretty.Config, lib: Library, items: seq<Shown>, m: nat)
    requires m <= |items|
    ensures RunLines(cfg, lib, items)[..m] == RunLines(cfg, lib, items[..m])
  {
    hide Line;
    forall n | 0 <= n < m ensures RunLines(cfg, lib, items)[n] == RunLines(cfg, lib, items[..m])[n] {
      assert items[..m][..n] == items[..n];
    }
  }

  lemma RunTextStep(cfg: Pretty.Config, lib: Library, items: seq<Shown>, m: nat)
    requires |items| == m + 1
    ensures RunText(Plain, cfg, lib, items) == RunText(Plain, cfg, lib, items[..m]) + LineAt(Plain, cfg, lib, items, m)
  {
    hide Line, StateAfter;
  }

  lemma LastApart(lines: seq<string>, m: nat)
    requires |lines| == m + 1
    ensures lines == lines[..m] + [lines[m]]
  {
  }

  lemma {:induction false} RunTextIsConcat(cfg: Pretty.Config, lib: Library, items: seq<Shown>)
    ensures RunText(Plain, cfg, lib, items) == Concat(RunLines(cfg, lib, items))
  {
    hide Line, StateAfter, Concat;
    if |items| == 0 {
      assert Concat([]) == "" by { ConcatNothing(); }
    } else {
      hide RunText, RunLines;
      var m := |items| - 1;
      var lines := RunLines(cfg, lib, items);
      RunTextIsConcat(cfg, lib, items[..m]);
      RunLinesPrefix(cfg, lib, items, m);
      ConcatSnoc(lines[..m], lines[m]);
      RunTextStep(cfg, lib, items, m);
      LastApart(lines, m);
    }
  }

  lemma ConcatNothing()
    ensures Concat([]) == ""
  {
  }

  // No column breaks its line.

  lemma {:induction false} SpacesClean(n: nat)
    ensures IsClean(Spaces(n))
  {
    if n > 0 {
      SpacesClean(n - 1);
    }
  }

  lemma DecimalClean(i: int)
    ensures IsClean(Decimal(i))
  {
    DecimalPrintable(i);
    PrintableIsClean(Decimal(i));
  }

  lemma PidColumnClean(pid: Pid, pad: nat, continues: bool)
    ensures IsClean(PidColumn(Plain, PidText(pid), pad, continues))
  {
    hide Decimal;
    DecimalClean(pid);
    SpacesClean(pad);
    SpacesClean(|PidText(pid)| + pad - 2);
  }

  lemma NameColumnClean(style: NameStyle, name: Name, pad: nat)
    ensures IsClean(NameColumn(Plain, style, name, pad))
  {
    SpacesClean(pad);
    assert AllNameChars(name);
  }

  lemma RetColumnClean(lib: Library, ret: int)
    ensures IsClean(RetColumn(Plain, lib, ret, false))
  {
    hide Decimal;
    DecimalClean(ret);
  }

  lemma ColumnsAreOneLine(a: string, b: string, c: string, d: string, duration: Span)
    requires IsClean(a) && IsClean(b) && IsClean(c) && IsClean(d)
    ensures OneLine(a + b + c + d + Tail(Plain, duration)) && NoEsc(a + b + c + d + Tail(Plain, duration))
  {
    var line := a + b + c + d + Tail(Plain, duration);
    assert line == a + b + c + d + (" " + "<" + duration + ">") + "\n";
    assert line[..|line| - 1] == a + b + c + d + (" " + "<" + duration + ">");
  }

  /** A plain line is one line, whatever the tracee passes. */
  lemma LineIsOneLine(cfg: Pretty.Config, lib: Library, st: State, x: Shown)
    ensures OneLine(Line(Plain, cfg.(color := false), lib, st, x))
    ensures NoEsc(Line(Plain, cfg.(color := false), lib, st, x))
  {
    hide PidColumn, NameColumn, RetColumn, Tail, PidText, NameStyleOf, BasenameOf, ArgsText, IsClean, OneLine, NoEsc;
    var off := cfg.(color := false);
    var pid, name := PidText(x.ev.pid), NameOf(lib, x);
    var wide := Widened(off, st, pid, name);
    var c := Columns(Plain, off, lib, st, x);
    PidColumnClean(x.ev.pid, Pad(off, wide.pidWidth, pid), Continues(off, wide, BasenameOf(lib, x), x.ev.pid));
    NameColumnClean(NameStyleOf(off, x.category, false), name, Pad(off, wide.nameWidth, name));
    ArgsPrintable(x.call, lib.utf8);
    ArgsColumnClean(ArgsText(x.call, lib.utf8));
    RetColumnClean(lib, x.ev.ret);
    ColumnsAreOneLine(c.0, c.1, c.2, c.3, lib.duration(x.ev.duration));
  }

  lemma ArgsColumnClean(args: string)
    requires IsClean(args)
    ensures IsClean(ArgsColumn(args))
  {
  }

  /** The page splits into the lines that were printed, one for each event, whatever text follows. */
  lemma PageLinesAnd(cfg: Pretty.Config, lib: Library, items: seq<Shown>, rest: string)
    ensures var off := cfg.(color := false);
            LinesOf(RunText(Plain, off, lib, items) + rest) == RunLines(off, lib, items) + LinesOf(rest)
  {
    hide Line, OneLine, LinesOf;
    var off := cfg.(color := false);
    RunTextIsConcat(off, lib, items);
    forall l | l in RunLines(off, lib, items) ensures OneLine(l) {
      var n :| 0 <= n < |items| && RunLines(off, lib, items)[n] == l;
      LineIsOneLine(cfg, lib, StateAfter(off, lib, items[..n]), items[n]);
    }
    LinesOfConcat(RunLines(off, lib, items), rest);
  }

  lemma PageLines(cfg: Pretty.Config, lib: Library, items: seq<Shown>)
    ensures var off := cfg.(color := false);
            LinesOf(RunText(Plain, off, lib, items)) == RunLines(off, lib, items)
  {
    hide Line, RunText, RunLines;
    var off := cfg.(color := false);
    PageLinesAnd(cfg, lib, items, "");
    assert RunText(Plain, off, lib, items) + "" == RunText(Plain, off, lib, items);
    assert LinesOf("") == [] && RunLines(off, lib, items) + [] == RunLines(off, lib, items);
  }

  /** What the n-th line of a page says can be read off the page: all that `ReadingOf` holds. */
  lemma PageReadBack(cfg: Pretty.Config, lib: Library, items: seq<Shown>, n: nat)
    requires n < |items|
    ensures var lines := LinesOf(RunText(Plain, cfg.(color := false), lib, items));
            && |lines| == |items|
            && ReadLine(lines[n]) == Some(ReadingOf(lib, items[n]))
  {
    hide Line, ReadLine;
    PageLines(cfg, lib, items);
    LineReadBack(cfg, lib, StateAfter(cfg.(color := false), lib, items[..n]), items[n]);
  }

  // Which lines are lookups.

  /** What the decoders of lookups keep to: every path is labelled `pathname`, and no other argument is quoted. */
  predicate Labelled(name: string, call: Call) {
    name in LOOKUPS ==>
      forall i :: 0 <= i < |call.args| ==>
        !call.args[i].1.Bytes? && (call.args[i].1.Path? ==> call.args[i].0 == "pathname")
  }

  lemma QuotedKinds(arg: Arg, utf8: Utf8)
    ensures IsQuoted(RenderArg(arg, utf8)) <==> arg.Path? || arg.Bytes?
  {
    hide IsWord, Digits;
    match arg
    case Path(_) =>
    case Bytes(_, _) =>
    case Argv(_) =>
    case FlagNames(names) =>
      FixedWords();
      if names != [] {
        NamesAreWord(names);
      }
      WordNotQuoted(RenderArg(arg, utf8));
    case _ =>
      NumbersAreWords(arg, utf8);
      WordNotQuoted(RenderArg(arg, utf8));
  }

  lemma WordNotQuoted(s: string)
    requires IsWord(s)
    ensures !IsQuoted(s)
  {
  }

  lemma {:induction false} RenderAllAt(args: seq<(string, Arg)>, utf8: Utf8, i: nat)
    requires i < |args|
    ensures RenderAll(args, utf8)[i] == RenderArg(args[i].1, utf8)
  {
    hide RenderArg;
    if i > 0 {
      RenderAllAt(args[1..], utf8, i - 1);
    }
  }

  lemma LookupNames(name: string)
    ensures IsPathLookup(name) <==> name in LOOKUPS
  {
  }

  /** A line is seen to be a lookup with a path exactly when it is one, which is when its event has a basename. */
  lemma LookupLineIff(cfg: Pretty.Config, lib: Library, st: State, x: Shown)
    requires Labelled(NameOf(lib, x), x.call)
    ensures IsLookupLine(Line(Plain, cfg.(color := false), lib, st, x)) <==> BasenameOf(lib, x).Some?
    ensures BasenameOf(lib, x).Some?
       <==> lib.name(x.ev.nr) in LOOKUPS && exists k :: 0 <= k < |x.call.args| && LabelledPath(x.call.args[k])
  {
    hide Line, ReadLine, RenderArg, RenderAll, FirstBasename, IsQuoted, IsPathLookup;
    LookupNames(NameOf(lib, x));
    LineReadBack(cfg, lib, st, x);
    HasBasename(x.call.args);
    forall i | 0 <= i < |x.call.args|
      ensures IsQuoted(RenderAll(x.call.args, lib.utf8)[i]) <==> x.call.args[i].1.Path? || x.call.args[i].1.Bytes?
    {
      RenderAllAt(x.call.args, lib.utf8, i);
      QuotedKinds(x.call.args[i].1, lib.utf8);
    }
    if i :| 0 <= i < |x.call.args| && LabelledPath(x.call.args[i]) {
      assert IsQuoted(RenderAll(x.call.args, lib.utf8)[i]);
    }
  }

  // Colour.

  /** A line that is dimmed as a whole: a lookup that came back with -2, ENOENT. */
  predicate IsDimmed(cfg: Pretty.Config, name: string, ret: int) {
    cfg.color && cfg.dimLookups && ret == -2 && name in LOOKUPS
  }

  /** The return value in colour: one style for the number and the errno's symbol, by whether the call failed. */
  function ColouredResult(theme: Theme, ret: int, errno: Option<(Name, Clean)>, dim: bool): string {
    match errno
    case None => Paint(if dim then theme.dim else theme.good, Decimal(ret))
    case Some((symbol, desc)) =>
      var style := if dim then theme.dim else theme.bad;
      Paint(style, Decimal(ret)) + " " + Paint(style, symbol) + " (" + (if dim then Paint(theme.dim, desc) else desc) + ")"
  }

  /** What a coloured line ends in, from the argument list on. */
  function ColouredRest(theme: Theme, cfg: Pretty.Config, lib: Library, x: Shown): string {
    var errno := if -0x8000_0000 < x.ev.ret < 0 then lib.errno(-x.ev.ret) else None;
    "(" + ArgsText(x.call, lib.utf8) + ") = "
    + ColouredResult(theme, x.ev.ret, errno, IsDimmed(cfg, lib.name(x.ev.nr), x.ev.ret))
    + (" " + Paint(theme.dim, "<" + lib.duration(x.ev.duration) + ">") + "\n")
  }

  lemma ColouredResultIs(theme: Theme, lib: Library, ret: int, dim: bool)
    ensures RetColumn(Colour(theme), lib, ret, dim)
         == ColouredResult(theme, ret, if -0x8000_0000 < ret < 0 then lib.errno(-ret) else None, dim)
  {
    hide Paint, Decimal;
  }

  /**
   * Which style everything in a coloured line has. The pid, or the glyph, is dim; the name has the style of its
   * category, or is dim in a dimmed line; the arguments have none.
   */
  lemma ColouredLine(theme: Theme, cfg: Pretty.Config, lib: Library, st: State, x: Shown)
      returns (before: string, after: string)
    requires cfg.color
    ensures Line(Colour(theme), cfg, lib, st, x)
         == before + " " + Paint(theme.name(NameStyleOf(cfg, x.category, IsDimmed(cfg, lib.name(x.ev.nr), x.ev.ret))),
                                 lib.name(x.ev.nr))
            + after + ColouredRest(theme, cfg, lib, x)
    ensures after == Spaces(|after|)
    ensures var burst := Continues(cfg, st, BasenameOf(lib, x), x.ev.pid);
            exists n :: before == if burst then Spaces(n) + Paint(theme.dim, "\U{21B3} ")
                                  else Paint(theme.dim, "[" + Decimal(x.ev.pid) + "]") + Spaces(n)
  {
    hide RetColumn, IsPathLookup, ArgsText, NameStyleOf, Paint, Decimal, Spaces, BasenameOf;
    var pid, name := PidText(x.ev.pid), NameOf(lib, x);
    var wide := Widened(cfg, st, pid, name);
    var dim := DimLine(cfg, name, x.ev.ret);
    LookupNames(name);
    ColouredResultIs(theme, lib, x.ev.ret, dim);
    SameMemory(cfg, lib, st, x);
    var pad := Pad(cfg, wide.pidWidth, pid);
    var c := Columns(Colour(theme), cfg, lib, st, x);
    before := c.0;
    after := Spaces(Pad(cfg, wide.nameWidth, name));
    var lead := if |pid| + pad < 2 then 0 else |pid| + pad - 2;
    var burst := Continues(cfg, st, BasenameOf(lib, x), x.ev.pid);
    assert before == if burst then Spaces(lead) + Paint(theme.dim, "\U{21B3} ")
                     else Paint(theme.dim, "[" + Decimal(x.ev.pid) + "]") + Spaces(pad);
    ColumnsJoined(before, Paint(theme.name(NameStyleOf(cfg, x.category, dim)), name), after, c.2, c.3, c.4);
  }

  lemma ColumnsJoined(a: string, name: string, spaces: string, args: string, ret: string, tail: string)
    ensures a + (" " + name + spaces) + args + ret + tail == a + " " + name + spaces + (args + ret + tail)
  {
  }

  // Pids.

  ghost predicate AllLabelled(lib: Library, items: seq<Shown>) {
    forall x :: x in items ==> Labelled(NameOf(lib, x), x.call)
  }

  lemma {:induction false} CarriedIsLatest(cfg: Pretty.Config, lib: Library, items: seq<Shown>)
    requires AllLabelled(lib, items) && !cfg.color
    ensures Latest(lib, items).None? ==> Carried(RunLines(cfg, lib, items)).None?
    ensures Latest(lib, items).Some? ==> Carried(RunLines(cfg, lib, items)) == Some(Latest(lib, items).value.1)
  {
    hide BasenameOf, ReadPid, Line, IsBurst, IsLookupLine, Labelled, LabelledPath;
    if |items| > 0 {
      var n := |items| - 1;
      RunLinesPrefix(cfg, lib, items, n);
      CarriedIsLatest(cfg, lib, items[..n]);
      LineShowsPid(cfg, lib, items, n);
      BurstIff(cfg, lib, items, n);
      assert items[n] in items && cfg.(color := false) == cfg;
      LookupLineIff(cfg, lib, StateAfter(cfg, lib, items[..n]), items[n]);
    }
  }

  lemma PidOfLine(cfg: Pretty.Config, lib: Library, items: seq<Shown>, n: nat)
    requires AllLabelled(lib, items) && !cfg.color && n < |items|
    ensures PidOf(RunLines(cfg, lib, items), n) == Some(items[n].ev.pid)
  {
    hide BasenameOf, ReadPid, Line, IsBurst, Latest, Carried, Labelled;
    LineShowsPid(cfg, lib, items, n);
    RunLinesPrefix(cfg, lib, items, n);
    CarriedIsLatest(cfg, lib, items[..n]);
    BurstIff(cfg, lib, items, n);
  }

  /** Every pid of a run can be read off the text of its page, burst lines included. */
  lemma PidsRecoverable(cfg: Pretty.Config, lib: Library, items: seq<Shown>)
    requires AllLabelled(lib, items)
    ensures var pids := ReadPids(RunText(Plain, cfg.(color := false), lib, items));
            |pids| == |items| && forall n :: 0 <= n < |items| ==> pids[n] == Some(items[n].ev.pid)
  {
    hide Line, PidOf, LinesOf, Labelled;
    PageLines(cfg, lib, items);
    forall n | 0 <= n < |items| ensures PidOf(RunLines(cfg.(color := false), lib, items), n) == Some(items[n].ev.pid) {
      PidOfLine(cfg.(color := false), lib, items, n);
    }
  }

  /** What a terminal shows of a run, coloured or not, followed by any other text. */
  lemma TerminalShows(theme: Theme, cfg: Pretty.Config, lib: Library, items: seq<Shown>, rest: string)
    ensures Strip(RunText(InkOf(cfg, theme), cfg, lib, items) + rest)
         == RunText(Plain, cfg.(color := false), lib, items) + Strip(rest)
  {
    hide RunText, Strip, Shows;
    if cfg.color {
      assert cfg.(color := true) == cfg;
      RunShows(theme, cfg, lib, items);
      ShowsOne(RunText(Colour(theme), cfg, lib, items), RunText(Plain, cfg.(color := false), lib, items), rest);
    } else {
      assert cfg.(color := false) == cfg;
      RunNoEsc(cfg, lib, items);
      StripClean(RunText(Plain, cfg, lib, items), rest);
    }
  }

  /** And so they can off what a terminal shows, coloured or not. */
  lemma PidsOnTheTerminal(theme: Theme, cfg: Pretty.Config, lib: Library, items: seq<Shown>)
    requires AllLabelled(lib, items)
    ensures var pids := ReadPids(Strip(RunText(InkOf(cfg, theme), cfg, lib, items)));
            |pids| == |items| && forall n :: 0 <= n < |items| ==> pids[n] == Some(items[n].ev.pid)
  {
    hide RunText, ReadPids, AllLabelled;
    PidsRecoverable(cfg, lib, items);
    TerminalShows(theme, cfg, lib, items, "");
    assert RunText(InkOf(cfg, theme), cfg, lib, items) + "" == RunText(InkOf(cfg, theme), cfg, lib, items);
    assert RunText(Plain, cfg.(color := false), lib, items) + "" == RunText(Plain, cfg.(color := false), lib, items);
  }

  /**
   * The same of a run that is followed by any text, such as a line torn off in the middle: of its events, everything
   * can still be read off what a terminal shows.
   */
  lemma FrontReadBack(theme: Theme, cfg: Pretty.Config, lib: Library, items: seq<Shown>, rest: string, n: nat)
    requires AllLabelled(lib, items) && n < |items|
    ensures var lines := LinesOf(Strip(RunText(InkOf(cfg, theme), cfg, lib, items) + rest));
            && |items| <= |lines|
            && PidOf(lines, n) == Some(items[n].ev.pid)
            && ReadLine(lines[n]) == Some(ReadingOf(lib, items[n]))
  {
    hide RunText, Line, PidOf, ReadLine, Strip, AllLabelled, LinesOf, ReadingOf;
    var off := cfg.(color := false);
    TerminalShows(theme, cfg, lib, items, rest);
    PageLinesAnd(cfg, lib, items, Strip(rest));
    PidOfLine(off, lib, items, n);
    LineReadBack(cfg, lib, StateAfter(off, lib, items[..n]), items[n]);
    PidOfFront(RunLines(off, lib, items), LinesOf(Strip(rest)), n);
  }

  lemma PidOfFront(lines: seq<string>, more: seq<string>, n: nat)
    requires n < |lines|
    ensures PidOf(lines + more, n) == PidOf(lines, n)
  {
    assert (lines + more)[..n] == lines[..n];
  }

  lemma {:induction false} RunNoEsc(cfg: Pretty.Config, lib: Library, items: seq<Shown>)
    requires !cfg.color
    ensures NoEsc(RunText(Plain, cfg, lib, items))
  {
    hide Line, StateAfter;
    if |items| > 0 {
      var m := |items| - 1;
      RunNoEsc(cfg, lib, items[..m]);
      assert cfg.(color := false) == cfg;
      LineIsOneLine(cfg, lib, StateAfter(cfg, lib, items[..m]), items[m]);
    }
  }
}
