/** What the formatter promises over a whole run: colour erasure, alignment, and burst lines whose pid is not lost. */
module PrettyRuns {
  import opened Prelude
  import opened TracerModel
  import opened Text
  import opened Render
  import opened Terminal
  import opened Pretty

  function StateAfter(cfg: Pretty.Config, lib: Library, items: seq<Shown>): State {
    if |items| == 0 then FRESH
    else NextState(cfg, lib, StateAfter(cfg, lib, items[..|items| - 1]), items[|items| - 1], true)
  }

  /** The line of the n-th event of a run. */
  function LineAt(ink: Ink, cfg: Pretty.Config, lib: Library, items: seq<Shown>, n: nat): string
    requires n < |items|
  {
    Line(ink, cfg, lib, StateAfter(cfg, lib, items[..n]), items[n])
  }

  function RunText(ink: Ink, cfg: Pretty.Config, lib: Library, items: seq<Shown>): string {
    if |items| == 0 then ""
    else
      RunText(ink, cfg, lib, items[..|items| - 1])
      + Line(ink, cfg, lib, StateAfter(cfg, lib, items[..|items| - 1]), items[|items| - 1])
  }

  // Colour erasure.

  lemma TintShows(theme: Theme, role: Role, s: string)
    requires NoEsc(s)
    ensures Shows(Tint(Colour(theme), role, s), Tint(Plain, role, s))
  {
    PaintShows(StyleOf(theme, role), s);
  }

  lemma PidColumnShows(theme: Theme, pid: string, pad: nat, continues: bool)
    requires NoEsc(pid)
    ensures Shows(PidColumn(Colour(theme), pid, pad, continues), PidColumn(Plain, pid, pad, continues))
  {
    hide Shows, Tint;
    if continues {
      var lead := Spaces(if |pid| + pad < 2 then 0 else |pid| + pad - 2);
      CleanShows(lead);
      TintShows(theme, Dim, BURST_PREFIX);
      ShowsBoth(lead, lead, Tint(Colour(theme), Dim, BURST_PREFIX), Tint(Plain, Dim, BURST_PREFIX));
    } else {
      TintShows(theme, Dim, pid);
      CleanShows(Spaces(pad));
      ShowsBoth(Tint(Colour(theme), Dim, pid), Tint(Plain, Dim, pid), Spaces(pad), Spaces(pad));
    }
  }

  lemma NameColumnShows(theme: Theme, style: NameStyle, other: NameStyle, name: Name, pad: nat)
    ensures Shows(NameColumn(Colour(theme), style, name, pad), NameColumn(Plain, other, name, pad))
  {
    assert NoEsc(name);
    assert Tint(Plain, Named(style), name) == Tint(Plain, Named(other), name);
    hide Shows, Tint;
    var sent, shown := Tint(Colour(theme), Named(style), name), Tint(Plain, Named(style), name);
    TintShows(theme, Named(style), name);
    CleanShows(" ");
    CleanShows(Spaces(pad));
    ShowsBoth(" ", " ", sent, shown);
    ShowsBoth(" " + sent, " " + shown, Spaces(pad), Spaces(pad));
  }

  lemma FramedShows(before: string, sent: string, shown: string, after: string)
    requires NoEsc(before) && NoEsc(after) && Shows(sent, shown)
    ensures Shows(before + sent + after, before + shown + after)
  {
    hide Shows;
    CleanShows(before);
    CleanShows(after);
    ShowsBoth(before, before, sent, shown);
    ShowsBoth(before + sent, before + shown, after, after);
  }

  lemma RetColumnShows(theme: Theme, lib: Library, ret: int, dim: bool)
    ensures Shows(RetColumn(Colour(theme), lib, ret, dim), RetColumn(Plain, lib, ret, false))
  {
    match ErrnoOfRet(lib, ret)
    case None => TintShows(theme, if dim then Dim else Good, Decimal(ret));
    case Some((sym, desc)) =>
      var role := if dim then Dim else Bad;
      var sentDesc := if dim then Tint(Colour(theme), Dim, desc) else desc;
      TintShows(theme, role, Decimal(ret));
      TintShows(theme, role, sym);
      CleanShows(desc);
      TintShows(theme, Dim, desc);
      assert RetColumn(Plain, lib, ret, false) == Decimal(ret) + " " + sym + " (" + desc + ")";
      RetShows(Tint(Colour(theme), role, Decimal(ret)), Decimal(ret), Tint(Colour(theme), role, sym), sym, sentDesc, desc);
  }

  lemma RetShows(ret: string, shownRet: string, sym: string, shownSym: string, desc: string, shownDesc: string)
    requires Shows(ret, shownRet) && Shows(sym, shownSym) && Shows(desc, shownDesc)
    ensures Shows(ret + " " + sym + " (" + desc + ")", shownRet + " " + shownSym + " (" + shownDesc + ")")
  {
    hide Shows;
    FramedShows("", ret, shownRet, " ");
    assert "" + ret == ret && "" + shownRet == shownRet;
    ShowsBoth(ret + " ", shownRet + " ", sym, shownSym);
    CleanShows(" (");
    ShowsBoth(ret + " " + sym, shownRet + " " + shownSym, " (", " (");
    ShowsBoth(ret + " " + sym + " (", shownRet + " " + shownSym + " (", desc, shownDesc);
    CleanShows(")");
    ShowsBoth(ret + " " + sym + " (" + desc, shownRet + " " + shownSym + " (" + shownDesc, ")", ")");
  }

  lemma TailShows(theme: Theme, duration: Span)
    ensures Shows(Tail(Colour(theme), duration), Tail(Plain, duration))
  {
    TintShows(theme, Dim, "<" + duration + ">");
    FramedShows(" ", Tint(Colour(theme), Dim, "<" + duration + ">"), "<" + duration + ">", "\n");
  }

  /** One line: take the styling away and the plain line is left. */
  lemma LineShows(theme: Theme, cfg: Pretty.Config, lib: Library, st: State, x: Shown)
    ensures Shows(Line(Colour(theme), cfg.(color := true), lib, st, x), Line(Plain, cfg.(color := false), lib, st, x))
  {
    hide Shows, PidColumn, NameColumn, ArgsColumn, RetColumn, Tail;
    var pid, name := PidText(x.ev.pid), NameOf(lib, x);
    var wide := Widened(cfg, st, pid, name);
    var dim := DimLine(cfg.(color := true), name, x.ev.ret);
    var a := Columns(Colour(theme), cfg.(color := true), lib, st, x);
    var b := Columns(Plain, cfg.(color := false), lib, st, x);
    PidColumnShows(theme, pid, Pad(cfg, wide.pidWidth, pid), Continues(cfg, wide, BasenameOf(lib, x), x.ev.pid));
    NameColumnShows(theme, NameStyleOf(cfg.(color := true), x.category, dim), Unstyled, name, Pad(cfg, wide.nameWidth, name));
    ArgsColumnShows(x.call, lib.utf8);
    RetColumnShows(theme, lib, x.ev.ret, dim);
    TailShows(theme, lib.duration(x.ev.duration));
    ShowsBoth(a.0, b.0, a.1, b.1);
    ShowsBoth(a.0 + a.1, b.0 + b.1, a.2, b.2);
    ShowsBoth(a.0 + a.1 + a.2, b.0 + b.1 + b.2, a.3, b.3);
    ShowsBoth(a.0 + a.1 + a.2 + a.3, b.0 + b.1 + b.2 + b.3, a.4, b.4);
  }

  lemma ArgsColumnShows(call: Call, utf8: Utf8)
    ensures Shows(ArgsColumn(ArgsText(call, utf8)), ArgsColumn(ArgsText(call, utf8)))
  {
    ArgsPrintable(call, utf8);
    CleanShows(ArgsColumn(ArgsText(call, utf8)));
  }

  lemma {:induction false} ColourKeepsState(cfg: Pretty.Config, lib: Library, items: seq<Shown>)
    ensures StateAfter(cfg.(color := true), lib, items) == StateAfter(cfg.(color := false), lib, items)
  {
    if |items| > 0 {
      ColourKeepsState(cfg, lib, items[..|items| - 1]);
    }
  }

  lemma {:induction false} RunShows(theme: Theme, cfg: Pretty.Config, lib: Library, items: seq<Shown>)
    ensures Shows(RunText(Colour(theme), cfg.(color := true), lib, items), RunText(Plain, cfg.(color := false), lib, items))
  {
    hide Shows, Line;
    if |items| == 0 {
      CleanShows("");
    } else {
      var before, x := items[..|items| - 1], items[|items| - 1];
      var on, off := cfg.(color := true), cfg.(color := false);
      RunShows(theme, cfg, lib, before);
      ColourKeepsState(cfg, lib, before);
      LineShows(theme, cfg, lib, StateAfter(off, lib, before), x);
      ShowsBoth(RunText(Colour(theme), on, lib, before), RunText(Plain, off, lib, before),
        Line(Colour(theme), on, lib, StateAfter(off, lib, before), x), Line(Plain, off, lib, StateAfter(off, lib, before), x));
    }
  }

  /** Over any run, what a terminal shows of the coloured output is the plain output, and both leave the same state. */
  lemma ColourErasure(theme: Theme, cfg: Pretty.Config, lib: Library, items: seq<Shown>)
    ensures Strip(RunText(Colour(theme), cfg.(color := true), lib, items)) == RunText(Plain, cfg.(color := false), lib, items)
    ensures StateAfter(cfg.(color := true), lib, items) == StateAfter(cfg.(color := false), lib, items)
  {
    RunShows(theme, cfg, lib, items);
    ShowsWhole(RunText(Colour(theme), cfg.(color := true), lib, items), RunText(Plain, cfg.(color := false), lib, items));
    ColourKeepsState(cfg, lib, items);
  }

  // Alignment.

  /** The widest bracketed pid and the widest name so far. */
  function WidestPid(items: seq<Shown>): nat {
    if |items| == 0 then 0 else Max(WidestPid(items[..|items| - 1]), |PidText(items[|items| - 1].ev.pid)|)
  }

  function WidestName(lib: Library, items: seq<Shown>): nat {
    if |items| == 0 then 0 else Max(WidestName(lib, items[..|items| - 1]), |NameOf(lib, items[|items| - 1])|)
  }

  lemma {:induction false} WidthsAreMaxima(cfg: Pretty.Config, lib: Library, items: seq<Shown>)
    ensures StateAfter(cfg, lib, items).pidWidth == if cfg.aligned then WidestPid(items) else 0
    ensures StateAfter(cfg, lib, items).nameWidth == if cfg.aligned then WidestName(lib, items) else 0
  {
    if |items| > 0 {
      WidthsAreMaxima(cfg, lib, items[..|items| - 1]);
    }
  }

  /** Where the argument list opens in the n-th line. */
  function ParenColumn(lib: Library, items: seq<Shown>, n: nat): nat
    requires n < |items|
  {
    WidestPid(items[..n + 1]) + 1 + WidestName(lib, items[..n + 1])
  }

  predicate NoParen(s: string) { forall i :: 0 <= i < |s| ==> s[i] != '(' }

  lemma {:induction false} SpacesNoParen(n: nat)
    ensures NoParen(Spaces(n))
  {
    if n > 0 {
      SpacesNoParen(n - 1);
    }
  }

  lemma DigitsNoParen(n: nat)
    ensures NoParen(Digits(n, 10))
  {
    var s := Digits(n, 10);
    assert DigitValue('(') == 16;
  }

  lemma PidNoParen(pid: Pid)
    ensures NoParen(PidText(pid))
  {
    DigitsNoParen(if pid < 0 then -pid else pid);
  }

  lemma PidColumnWidth(pid: Pid, pad: nat, continues: bool)
    ensures var c := PidColumn(Plain, PidText(pid), pad, continues);
            |c| == |PidText(pid)| + pad && NoParen(c)
  {
    PidNoParen(pid);
    SpacesNoParen(pad);
    SpacesNoParen(|PidText(pid)| + pad - 2);
  }

  lemma NameColumnWidth(style: NameStyle, name: Name, pad: nat)
    ensures var c := NameColumn(Plain, style, name, pad);
            |c| == 1 + |name| + pad && NoParen(c)
  {
    SpacesNoParen(pad);
  }

  lemma LineParen(cfg: Pretty.Config, lib: Library, st: State, x: Shown)
    requires cfg.aligned
    ensures var line := Line(Plain, cfg, lib, st, x);
            var col := Max(st.pidWidth, |PidText(x.ev.pid)|) + 1 + Max(st.nameWidth, |NameOf(lib, x)|);
            col < |line| && line[col] == '(' && NoParen(line[..col])
  {
    hide PidColumn, NameColumn, RetColumn, Tail, PidText, NameOf, DimLine, NameStyleOf, BasenameOf, ArgsText, Continues;
    var pid, name := PidText(x.ev.pid), NameOf(lib, x);
    var wide := Widened(cfg, st, pid, name);
    var c := Columns(Plain, cfg, lib, st, x);
    PidColumnWidth(x.ev.pid, wide.pidWidth - |pid|, Continues(cfg, wide, BasenameOf(lib, x), x.ev.pid));
    NameColumnWidth(NameStyleOf(cfg, x.category, DimLine(cfg, name, x.ev.ret)), name, wide.nameWidth - |name|);
    ParenAfter(c.0, c.1, ArgsText(x.call, lib.utf8), c.3, c.4);
  }

  lemma ParenAfter(a: string, b: string, args: string, d: string, e: string)
    requires NoParen(a) && NoParen(b)
    ensures var line := a + b + ArgsColumn(args) + d + e;
            |a| + |b| < |line| && line[|a| + |b|] == '(' && NoParen(line[..|a| + |b|])
  {
    var line := a + b + ArgsColumn(args) + d + e;
    assert ArgsColumn(args)[0] == '(';
    assert line[..|a| + |b|] == a + b;
  }

  /**
   * With alignment on, the argument list of the n-th line, burst line or not, opens right after the widest bracketed
   * pid so far, a space and the widest name so far.
   */
  lemma Aligned(cfg: Pretty.Config, lib: Library, items: seq<Shown>, n: nat)
    requires cfg.aligned && n < |items|
    ensures var line, col := LineAt(Plain, cfg, lib, items, n), ParenColumn(lib, items, n);
            col < |line| && line[col] == '(' && NoParen(line[..col])
  {
    hide Line, PidText, NameOf;
    WidthsAreMaxima(cfg, lib, items[..n]);
    assert items[..n + 1][..n] == items[..n];
    LineParen(cfg, lib, StateAfter(cfg, lib, items[..n]), items[n]);
  }

  /** The widths in force at the n-th line: the widest so far with alignment on, the line's own without. */
  function PidWidthAt(cfg: Pretty.Config, items: seq<Shown>, n: nat): nat
    requires n < |items|
  {
    if cfg.aligned then WidestPid(items[..n + 1]) else |PidText(items[n].ev.pid)|
  }

  function NameWidthAt(cfg: Pretty.Config, lib: Library, items: seq<Shown>, n: nat): nat
    requires n < |items|
  {
    if cfg.aligned then WidestName(lib, items[..n + 1]) else |lib.name(items[n].ev.nr)|
  }

  lemma PadsInForce(cfg: Pretty.Config, lib: Library, items: seq<Shown>, n: nat)
    requires n < |items|
    ensures var pid, name := PidText(items[n].ev.pid), NameOf(lib, items[n]);
            var wide := Widened(cfg, StateAfter(cfg, lib, items[..n]), pid, name);
            && |pid| <= PidWidthAt(cfg, items, n) && Pad(cfg, wide.pidWidth, pid) == PidWidthAt(cfg, items, n) - |pid|
            && |name| <= NameWidthAt(cfg, lib, items, n)
            && Pad(cfg, wide.nameWidth, name) == NameWidthAt(cfg, lib, items, n) - |name|
  {
    hide PidText;
    if cfg.aligned {
      WidthsAreMaxima(cfg, lib, items[..n]);
      assert items[..n + 1][..n] == items[..n];
    }
  }

  /** What a line starts with, from the widths of its columns and whether it is a burst line. */
  function Front(pid: Pid, p: nat, burst: bool, name: string, q: nat): string
    requires |PidText(pid)| <= p && |name| <= q
  {
    (if burst then Spaces(p - 2) + "\U{21B3} " else "[" + Decimal(pid) + "]" + Spaces(p - |PidText(pid)|))
    + " " + name + Spaces(q - |name|) + "("
  }

  /**
   * What stands before the argument list: the pid in brackets, or the glyph of a burst line against the right edge of
   * its column, then a space and the name, each column filled with spaces on the right.
   */
  lemma FrontOfLine(cfg: Pretty.Config, lib: Library, items: seq<Shown>, n: nat)
    requires n < |items|
    ensures var x, p, q := items[n], PidWidthAt(cfg, items, n), NameWidthAt(cfg, lib, items, n);
            && |PidText(x.ev.pid)| <= p && |lib.name(x.ev.nr)| <= q
            && Front(x.ev.pid, p, IsBurst(cfg, lib, items, n), lib.name(x.ev.nr), q) <= LineAt(Plain, cfg, lib, items, n)
  {
    hide PidColumn, NameColumn, ArgsColumn, RetColumn, Tail, DimLine, NameStyleOf, BasenameOf, ArgsText, Continues,
         PidText, StateAfter, PidWidthAt, NameWidthAt, Front;
    var x, st := items[n], StateAfter(cfg, lib, items[..n]);
    PadsInForce(cfg, lib, items, n);
    SameMemory(cfg, lib, st, x);
    var c := Columns(Plain, cfg, lib, st, x);
    ParenFollows(c.0, c.1, ArgsText(x.call, lib.utf8), c.3, c.4);
    FrontIs(x.ev.pid, PidWidthAt(cfg, items, n), IsBurst(cfg, lib, items, n),
      NameStyleOf(cfg, x.category, DimLine(cfg, NameOf(lib, x), x.ev.ret)), lib.name(x.ev.nr),
      NameWidthAt(cfg, lib, items, n));
  }

  lemma FrontIs(pid: Pid, p: nat, burst: bool, style: NameStyle, name: string, q: nat)
    requires |PidText(pid)| <= p && |name| <= q
    ensures PidColumn(Plain, PidText(pid), p - |PidText(pid)|, burst) + NameColumn(Plain, style, name, q - |name|) + "("
         == Front(pid, p, burst, name, q)
  {
    hide Decimal, Spaces;
    var bracket, spaces := "[" + Decimal(pid) + "]", Spaces(q - |name|);
    assert PidText(pid) == bracket;
    PlainColumns(style, name, q - |name|, "");
    var a := if burst then Spaces(p - 2) + "\U{21B3} " else bracket + Spaces(p - |bracket|);
    assert PidColumn(Plain, bracket, p - |bracket|, burst) == a;
    JoinedFront(a, name, spaces);
  }

  lemma JoinedFront(a: string, name: string, spaces: string)
    ensures a + (" " + name + spaces) + "(" == a + " " + name + spaces + "("
  {
  }

  lemma SameMemory(cfg: Pretty.Config, lib: Library, st: State, x: Shown)
    ensures Continues(cfg, Widened(cfg, st, PidText(x.ev.pid), NameOf(lib, x)), BasenameOf(lib, x), x.ev.pid)
         == Continues(cfg, st, BasenameOf(lib, x), x.ev.pid)
  {
  }

  lemma ParenFollows(a: string, b: string, args: string, d: string, e: string)
    ensures a + b + "(" <= a + b + ArgsColumn(args) + d + e
  {
  }

  lemma {:induction false} ColumnNeverMovesBack(lib: Library, items: seq<Shown>, m: nat, n: nat)
    requires m <= n < |items|
    ensures ParenColumn(lib, items, m) <= ParenColumn(lib, items, n)
    decreases n - m
  {
    hide PidText, NameOf;
    if m < n {
      ColumnNeverMovesBack(lib, items, m, n - 1);
      assert items[..n + 1][..n] == items[..n];
    }
  }

  // Bursts.

  /** The latest lookup with a path: its basename and pid. */
  function Latest(lib: Library, items: seq<Shown>): Option<(string, Pid)> {
    if |items| == 0 then None
    else
      var x := items[|items| - 1];
      var base := BasenameOf(lib, x);
      if base.Some? then Some((base.value, x.ev.pid)) else Latest(lib, items[..|items| - 1])
  }

  function Memory(st: State): Option<(string, Pid)> {
    if st.lastBasename.Some? && st.lastPid.Some? then Some((st.lastBasename.value, st.lastPid.value)) else None
  }

  lemma {:induction false} StateIsLatest(cfg: Pretty.Config, lib: Library, items: seq<Shown>)
    ensures Memory(StateAfter(cfg, lib, items)) == Latest(lib, items)
    ensures StateAfter(cfg, lib, items).lastBasename.Some? <==> StateAfter(cfg, lib, items).lastPid.Some?
  {
    hide LookupBasename;
    if |items| > 0 {
      StateIsLatest(cfg, lib, items[..|items| - 1]);
    }
  }

  /** The n-th line stands under the pid of an earlier one. */
  predicate IsBurst(cfg: Pretty.Config, lib: Library, items: seq<Shown>, n: nat)
    requires n < |items|
  {
    Continues(cfg, StateAfter(cfg, lib, items[..n]), BasenameOf(lib, items[n]), items[n].ev.pid)
  }

  /** A line is a burst line exactly when it repeats the basename and pid of the latest lookup that had a path. */
  lemma BurstIff(cfg: Pretty.Config, lib: Library, items: seq<Shown>, n: nat)
    requires n < |items|
    ensures IsBurst(cfg, lib, items, n)
       <==> && cfg.groupLookups
            && BasenameOf(lib, items[n]).Some?
            && Latest(lib, items[..n]) == Some((BasenameOf(lib, items[n]).value, items[n].ev.pid))
  {
    hide BasenameOf;
    StateIsLatest(cfg, lib, items[..n]);
  }

  lemma {:induction false} LatestAt(lib: Library, items: seq<Shown>) returns (k: nat)
    requires Latest(lib, items).Some?
    ensures k < |items| && BasenameOf(lib, items[k]).Some?
    ensures Latest(lib, items) == Some((BasenameOf(lib, items[k]).value, items[k].ev.pid))
    ensures forall j :: k < j < |items| ==> BasenameOf(lib, items[j]).None?
  {
    hide BasenameOf;
    if BasenameOf(lib, items[|items| - 1]).Some? {
      k := |items| - 1;
    } else {
      k := LatestAt(lib, items[..|items| - 1]);
    }
  }

  /** Every burst line has the pid and basename of the nearest bracketed lookup line above it; only burst lines lie between. */
  lemma {:induction false} BurstAnchor(cfg: Pretty.Config, lib: Library, items: seq<Shown>, n: nat) returns (k: nat)
    requires n < |items| && IsBurst(cfg, lib, items, n)
    ensures k < n && !IsBurst(cfg, lib, items, k)
    ensures items[k].ev.pid == items[n].ev.pid
    ensures BasenameOf(lib, items[k]) == BasenameOf(lib, items[n])
    ensures forall j :: k < j < n && BasenameOf(lib, items[j]).Some? ==> IsBurst(cfg, lib, items, j)
  {
    hide BasenameOf, Continues, Latest, StateAfter;
    var before := items[..n];
    BurstIff(cfg, lib, items, n);
    var last := LatestAt(lib, before);
    assert before[last] == items[last];
    if IsBurst(cfg, lib, items, last) {
      k := BurstAnchor(cfg, lib, items, last);
    } else {
      k := last;
    }
    forall j | k < j < n && BasenameOf(lib, items[j]).Some?
      ensures IsBurst(cfg, lib, items, j)
    {
      assert before[j] == items[j];
    }
  }

  // Reading the pids back off the page.

  function PidRun(s: string): (n: nat)
    ensures n <= |s|
  {
    if |s| == 0 || s[0] == ']' then 0 else 1 + PidRun(s[1..])
  }

  /** The pid a line shows, if it shows one. */
  function ReadPid(line: string): Option<Pid> {
    if |line| == 0 || line[0] != '[' then None
    else
      var s := line[1..];
      Some(ReadDecimal(s[..PidRun(s)]))
  }

  lemma {:induction false} PidRunStops(digits: string, rest: string)
    requires ']' !in digits
    ensures PidRun(digits + "]" + rest) == |digits|
  {
    if |digits| > 0 {
      PidRunStops(digits[1..], rest);
      assert (digits + "]" + rest)[1..] == digits[1..] + "]" + rest;
    }
  }

  lemma DecimalHasNoBracket(pid: Pid)
    ensures ']' !in Decimal(pid)
  {
    var s := Digits(if pid < 0 then -pid else pid, 10);
    assert DigitValue(']') == 16;
    assert forall i :: 0 <= i < |s| ==> s[i] != ']';
  }

  lemma BracketShowsPid(pid: Pid, rest: string)
    ensures ReadPid(PidText(pid) + rest) == Some(pid)
  {
    hide Decimal, ReadDecimal;
    DecimalHasNoBracket(pid);
    PidRunStops(Decimal(pid), rest);
    DecimalReadBack(pid);
    var line := PidText(pid) + rest;
    assert line[1..] == Decimal(pid) + "]" + rest;
    assert line[1..][..|Decimal(pid)|] == Decimal(pid);
  }

  lemma GlyphShowsNone(pid: string, pad: nat, rest: string)
    ensures ReadPid(PidColumn(Plain, pid, pad, true) + rest) == None
  {
    var c := PidColumn(Plain, pid, pad, true);
    assert (c + rest)[0] == c[0];
  }

  /** A plain line shows its pid exactly when it is not a burst line. */
  lemma LineShowsPid(cfg: Pretty.Config, lib: Library, items: seq<Shown>, n: nat)
    requires n < |items|
    ensures ReadPid(LineAt(Plain, cfg, lib, items, n))
         == if IsBurst(cfg, lib, items, n) then None else Some(items[n].ev.pid)
  {
    hide ReadPid, NameColumn, ArgsColumn, RetColumn, Tail, StateAfter, PidText, BasenameOf;
    var x, st := items[n], StateAfter(cfg, lib, items[..n]);
    var pid := PidText(x.ev.pid);
    var c := Columns(Plain, cfg, lib, st, x);
    var pad := Pad(cfg, Widened(cfg, st, pid, NameOf(lib, x)).pidWidth, pid);
    assert c.0 + c.1 + c.2 + c.3 + c.4 == c.0 + (c.1 + c.2 + c.3 + c.4);
    if IsBurst(cfg, lib, items, n) {
      GlyphShowsNone(pid, pad, c.1 + c.2 + c.3 + c.4);
    } else {
      assert c.0 + (c.1 + c.2 + c.3 + c.4) == pid + (Spaces(pad) + (c.1 + c.2 + c.3 + c.4));
      BracketShowsPid(x.ev.pid, Spaces(pad) + (c.1 + c.2 + c.3 + c.4));
    }
  }
}
