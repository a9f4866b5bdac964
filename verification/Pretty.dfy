/** The one-line formatter and the state it carries from line to line: pretty.rs. */
module Pretty {
  import opened Prelude
  import opened TracerModel
  import opened Text
  import opened Render
  import opened Terminal

  /** The text of a duration. */
  type Span = s: string | IsClean(s) && '<' !in s witness ""

  /**
   * The tables and displays other crates provide. Of their texts it is assumed that names are of letters, digits and
   * underscores, that the others are clean, and that a duration holds no `<`.
   */
  datatype Library = Library(
    name: u64 -> Name,
    errno: int -> Option<(Name, Clean)>,
    duration: nat -> Span,
    utf8: Utf8)

  datatype Category = File | FileMeta | Memory | Process | Other

  datatype Config = Config(color: bool, aligned: bool, categoryColors: bool, dimLookups: bool, groupLookups: bool)

  /** One event on its way to the page. */
  datatype Shown = Shown(ev: SyscallEvent, call: Call, category: Option<Category>)

  datatype State = State(pidWidth: nat, nameWidth: nat, lastBasename: Option<string>, lastPid: Option<Pid>)

  const FRESH := State(0, 0, None, None)
  const RET_ENOENT := -2
  const BURST_PREFIX := "\U{21B3} "

  function Max(a: nat, b: nat): (m: nat)
    ensures m >= a && m >= b && (m == a || m == b)
  {
    if a < b then b else a
  }

  function PidText(pid: Pid): (s: string)
    ensures |s| >= 3 && NoEsc(s)
  { "[" + Decimal(pid) + "]" }

  function NameOf(lib: Library, x: Shown): Name { lib.name(x.ev.nr) }

  function BasenameOf(lib: Library, x: Shown): Option<string> { LookupBasename(NameOf(lib, x), x.call) }

  function Widened(cfg: Config, st: State, pid: string, name: string): State {
    if cfg.aligned then st.(pidWidth := Max(st.pidWidth, |pid|), nameWidth := Max(st.nameWidth, |name|)) else st
  }

  function Pad(cfg: Config, width: nat, s: string): nat { if cfg.aligned && |s| < width then width - |s| else 0 }

  /** Whether a line continues the lookup burst of the line before it. */
  predicate Continues(cfg: Config, st: State, base: Option<string>, pid: Pid) {
    cfg.groupLookups && base.Some? && base == st.lastBasename && st.lastPid == Some(pid)
  }

  function Remembered(st: State, base: Option<string>, pid: Pid): State {
    if base.Some? then st.(lastBasename := base, lastPid := Some(pid)) else st
  }

  /** The state a line leaves behind when it is written in full, and when it is not. */
  function NextState(cfg: Config, lib: Library, st: State, x: Shown, full: bool): State {
    var wide := Widened(cfg, st, PidText(x.ev.pid), NameOf(lib, x));
    if full then Remembered(wide, BasenameOf(lib, x), x.ev.pid) else wide
  }

  // The line.

  datatype Role = Dim | Good | Bad | Named(style: NameStyle)

  function StyleOf(theme: Theme, role: Role): Style {
    match role
    case Dim => theme.dim
    case Good => theme.good
    case Bad => theme.bad
    case Named(n) => theme.name(n)
  }

  function Tint(ink: Ink, role: Role, s: string): string {
    match ink
    case Plain => s
    case Colour(theme) => Paint(StyleOf(theme, role), s)
  }

  function PidColumn(ink: Ink, pid: string, pad: nat, continues: bool): string {
    if continues then Spaces(if |pid| + pad < 2 then 0 else |pid| + pad - 2) + Tint(ink, Dim, BURST_PREFIX)
    else Tint(ink, Dim, pid) + Spaces(pad)
  }

  function NameStyleOf(cfg: Config, category: Option<Category>, dimLine: bool): NameStyle {
    if dimLine then Dimmed
    else if !cfg.color then Unstyled
    else if !cfg.categoryColors then Cyan
    else
      match category
      case Some(File) => Cyan
      case Some(FileMeta) => Blue
      case Some(Memory) => Magenta
      case Some(Process) => Yellow
      case _ => Bold
  }

  /** The name is styled by its category when colour and category colours are on and the line is not dimmed. */
  lemma NameStyles(cfg: Config, category: Option<Category>)
    ensures NameStyleOf(cfg, category, true) == Dimmed
    ensures !cfg.color ==> NameStyleOf(cfg, category, false) == Unstyled
    ensures cfg.color && !cfg.categoryColors ==> NameStyleOf(cfg, category, false) == Cyan
    ensures cfg.color && cfg.categoryColors ==>
              && (NameStyleOf(cfg, category, false) == Cyan <==> category == Some(File))
              && (NameStyleOf(cfg, category, false) == Blue <==> category == Some(FileMeta))
              && (NameStyleOf(cfg, category, false) == Magenta <==> category == Some(Category.Memory))
              && (NameStyleOf(cfg, category, false) == Yellow <==> category == Some(Process))
              && (NameStyleOf(cfg, category, false) == Bold <==> category == None || category == Some(Category.Other))
  {
  }

  function NameColumn(ink: Ink, style: NameStyle, name: string, pad: nat): string {
    " " + Tint(ink, Named(style), name) + Spaces(pad)
  }

  function ArgsColumn(args: string): string { "(" + args + ") = " }

  /** `errno_of_ret`, with the errno table as a function. */
  function ErrnoOfRet(lib: Library, ret: int): Option<(Name, Clean)> {
    if ret >= 0 || -ret >= 0x8000_0000 then None else lib.errno(-ret)
  }

  function RetColumn(ink: Ink, lib: Library, ret: int, dim: bool): string {
    match ErrnoOfRet(lib, ret)
    case Some((sym, desc)) =>
      var role := if dim then Dim else Bad;
      Tint(ink, role, Decimal(ret)) + " " + Tint(ink, role, sym)
        + " (" + (if dim then Tint(ink, Dim, desc) else desc) + ")"
    case None => Tint(ink, if dim then Dim else Good, Decimal(ret))
  }

  function Tail(ink: Ink, duration: string): string { " " + Tint(ink, Dim, "<" + duration + ">") + "\n" }

  predicate DimLine(cfg: Config, name: string, ret: int) {
    cfg.dimLookups && cfg.color && ret == RET_ENOENT && IsPathLookup(name)
  }

  function Columns(ink: Ink, cfg: Config, lib: Library, st: State, x: Shown): (c: (string, string, string, string, string)) {
    var pid, name := PidText(x.ev.pid), NameOf(lib, x);
    var wide := Widened(cfg, st, pid, name);
    var dim := DimLine(cfg, name, x.ev.ret);
    (PidColumn(ink, pid, Pad(cfg, wide.pidWidth, pid), Continues(cfg, wide, BasenameOf(lib, x), x.ev.pid)),
     NameColumn(ink, NameStyleOf(cfg, x.category, dim), name, Pad(cfg, wide.nameWidth, name)),
     ArgsColumn(ArgsText(x.call, lib.utf8)),
     RetColumn(ink, lib, x.ev.ret, dim),
     Tail(ink, lib.duration(x.ev.duration)))
  }

  function Line(ink: Ink, cfg: Config, lib: Library, st: State, x: Shown): string {
    var c := Columns(ink, cfg, lib, st, x);
    c.0 + c.1 + c.2 + c.3 + c.4
  }

  function InkOf(cfg: Config, theme: Theme): Ink { if cfg.color then Colour(theme) else Plain }

  // The program.

  class PrettyState {
    var pidWidth: nat
    var nameWidth: nat
    var lastBasename: Option<string>
    var lastPid: Option<Pid>

    constructor ()
      ensures Value() == FRESH
    {
      pidWidth, nameWidth, lastBasename, lastPid := 0, 0, None, None;
    }

    function Value(): State
      reads this
    { State(pidWidth, nameWidth, lastBasename, lastPid) }
  }

  method WriteSpaces(w: Writer, n: nat) returns (r: Result<(), IoError>)
    modifies w
    ensures w.Wrote(Spaces(n), r)
  {
    if n == 0 {
      assert w.text + "" == w.text;
      return Ok(());
    }
    r := w.Write(Spaces(n));
  }

  method WritePidColumnColor(w: Writer, theme: Theme, pid: string, pad: nat, continues: bool)
      returns (r: Result<(), IoError>)
    modifies w
    ensures w.Wrote(PidColumn(Colour(theme), pid, pad, continues), r)
  {
    if continues {
      var total := |pid| + pad;
      var lead := if total < 2 then 0 else total - 2;
      r := WriteSpaces(w, lead);
      if r.Ok? {
        r := w.Write(Paint(theme.dim, BURST_PREFIX));
      }
      TakenInParts(old(w.text), old(w.room), Spaces(lead), Paint(theme.dim, BURST_PREFIX));
    } else {
      r := w.Write(Paint(theme.dim, pid));
      if r.Ok? {
        r := WriteSpaces(w, pad);
      }
      TakenInParts(old(w.text), old(w.room), Paint(theme.dim, pid), Spaces(pad));
    }
  }

  method WritePidColumnPlain(w: Writer, pid: string, pad: nat, continues: bool) returns (r: Result<(), IoError>)
    modifies w
    ensures w.Wrote(PidColumn(Plain, pid, pad, continues), r)
  {
    if continues {
      var total := |pid| + pad;
      var lead := if total < 2 then 0 else total - 2;
      r := WriteSpaces(w, lead);
      if r.Ok? {
        r := w.Write(BURST_PREFIX);
      }
      TakenInParts(old(w.text), old(w.room), Spaces(lead), BURST_PREFIX);
    } else {
      r := w.Write(pid + Spaces(pad));
    }
  }

  method WriteRet(w: Writer, theme: Theme, lib: Library, ret: int, color: bool, dim: bool)
      returns (r: Result<(), IoError>)
    requires dim ==> color
    modifies w
    ensures w.Wrote(RetColumn(if color then Colour(theme) else Plain, lib, ret, dim), r)
  {
    hide Paint;
    var text := Decimal(ret);
    match ErrnoOfRet(lib, ret)
    case Some((sym, desc)) =>
      if dim {
        r := w.Write(Paint(theme.dim, text) + " " + Paint(theme.dim, sym) + " (" + Paint(theme.dim, desc) + ")");
      } else if color {
        r := w.Write(Paint(theme.bad, text) + " " + Paint(theme.bad, sym) + " (" + desc + ")");
      } else {
        r := w.Write(text + " " + sym + " (" + desc + ")");
      }
    case None =>
      if dim {
        r := w.Write(Paint(theme.dim, text));
      } else if color {
        r := w.Write(Paint(theme.good, text));
      } else {
        r := w.Write(text);
      }
  }

  method WriteNameColor(w: Writer, theme: Theme, style: NameStyle, name: string, pad: nat)
      returns (r: Result<(), IoError>)
    modifies w
    ensures w.Wrote(NameColumn(Colour(theme), style, name, pad), r)
  {
    var styled := " " + Paint(theme.name(style), name);
    r := w.Write(styled);
    if r.Ok? {
      r := WriteSpaces(w, pad);
    }
    TakenInParts(old(w.text), old(w.room), styled, Spaces(pad));
  }

  lemma PlainColumns(style: NameStyle, name: string, pad: nat, args: string)
    ensures NameColumn(Plain, style, name, pad) == " " + name + Spaces(pad)
    ensures ArgsColumn(args) == "(" + args + ") = "
  {
  }

  method WriteDuration(w: Writer, theme: Theme, color: bool, text: string) returns (r: Result<(), IoError>)
    modifies w
    ensures w.Wrote(Tail(if color then Colour(theme) else Plain, text), r)
  {
    var duration := "<" + text + ">";
    if color {
      r := w.Write(" " + Paint(theme.dim, duration) + "\n");
    } else {
      r := w.Write(" " + duration + "\n");
    }
  }

  /** The line up to the return value. The plain form pads the name and prints the arguments in one go. */
  method WriteHead(w: Writer, color: bool, theme: Theme, pid: string, pidPad: nat, continues: bool, style: NameStyle,
                   name: string, namePad: nat, args: string)
      returns (r: Result<(), IoError>)
    modifies w
    ensures var ink := if color then Colour(theme) else Plain;
            w.Wrote(PidColumn(ink, pid, pidPad, continues) + NameColumn(ink, style, name, namePad) + ArgsColumn(args), r)
  {
    hide PidColumn, NameColumn, ArgsColumn, Taken, Left, Fits;
    var ink := if color then Colour(theme) else Plain;
    ghost var c0, c1, c2 := PidColumn(ink, pid, pidPad, continues), NameColumn(ink, style, name, namePad), ArgsColumn(args);
    if color {
      r := WritePidColumnColor(w, theme, pid, pidPad, continues);
      if r.Ok? { r := WriteNameColor(w, theme, style, name, namePad); }
      TakenInParts(old(w.text), old(w.room), c0, c1);
      assert w.Wrote(c0 + c1, r);
      if r.Ok? { r := w.Write("(" + args + ") = "); }
      assert c2 == "(" + args + ") = " by { PlainColumns(style, name, namePad, args); }
      TakenInParts(old(w.text), old(w.room), c0 + c1, c2);
    } else {
      r := WritePidColumnPlain(w, pid, pidPad, continues);
      if r.Ok? { r := w.Write(" " + name + Spaces(namePad) + ("(" + args + ") = ")); }
      assert c1 + c2 == " " + name + Spaces(namePad) + ("(" + args + ") = ") by { PlainColumns(style, name, namePad, args); }
      TakenInParts(old(w.text), old(w.room), c0, c1 + c2);
      assert c0 + (c1 + c2) == c0 + c1 + c2;
    }
  }

  /** The five columns, one after the other, up to the first failure. */
  method WriteColumns(w: Writer, color: bool, theme: Theme, lib: Library, ev: SyscallEvent, pid: string, pidPad: nat,
                      continues: bool, style: NameStyle, name: string, namePad: nat, args: string, dim: bool)
      returns (r: Result<(), IoError>)
    requires dim ==> color
    modifies w
    ensures var ink := if color then Colour(theme) else Plain;
            w.Wrote(PidColumn(ink, pid, pidPad, continues) + NameColumn(ink, style, name, namePad) + ArgsColumn(args)
                    + RetColumn(ink, lib, ev.ret, dim) + Tail(ink, lib.duration(ev.duration)), r)
  {
    hide PidColumn, NameColumn, ArgsColumn, RetColumn, Tail, Taken, Left, Fits;
    var ink := if color then Colour(theme) else Plain;
    ghost var head := PidColumn(ink, pid, pidPad, continues) + NameColumn(ink, style, name, namePad) + ArgsColumn(args);
    ghost var ret, tail := RetColumn(ink, lib, ev.ret, dim), Tail(ink, lib.duration(ev.duration));
    r := WriteHead(w, color, theme, pid, pidPad, continues, style, name, namePad, args);
    if r.Ok? { r := WriteRet(w, theme, lib, ev.ret, color, dim); }
    TakenInParts(old(w.text), old(w.room), head, ret);
    assert w.Wrote(head + ret, r);
    if r.Ok? { r := WriteDuration(w, theme, color, lib.duration(ev.duration)); }
    TakenInParts(old(w.text), old(w.room), head + ret, tail);
  }

  lemma LineIs(ink: Ink, cfg: Config, lib: Library, st: State, x: Shown)
    ensures var pid, name := PidText(x.ev.pid), NameOf(lib, x);
            var wide := Widened(cfg, st, pid, name);
            var dim := DimLine(cfg, name, x.ev.ret);
            Line(ink, cfg, lib, st, x)
            == PidColumn(ink, pid, Pad(cfg, wide.pidWidth, pid), Continues(cfg, wide, BasenameOf(lib, x), x.ev.pid))
               + NameColumn(ink, NameStyleOf(cfg, x.category, dim), name, Pad(cfg, wide.nameWidth, name))
               + ArgsColumn(ArgsText(x.call, lib.utf8))
               + RetColumn(ink, lib, x.ev.ret, dim) + Tail(ink, lib.duration(x.ev.duration))
  {
    hide PidColumn, NameColumn, ArgsColumn, RetColumn, Tail, ArgsText, NameStyleOf, LookupBasename, PidText;
  }

  /**
   * `write_event`. The widths grow before anything is written; the basename and the pid are remembered only once the
   * whole line is out, and only when the event has a basename.
   */
  method WriteEvent(w: Writer, x: Shown, cfg: Config, theme: Theme, lib: Library, st: PrettyState)
      returns (r: Result<(), IoError>)
    modifies w, st
    ensures w.Wrote(Line(InkOf(cfg, theme), cfg, lib, old(st.Value()), x), r)
    ensures st.Value() == NextState(cfg, lib, old(st.Value()), x, r.Ok?)
  {
    hide PidColumn, NameColumn, ArgsColumn, RetColumn, Tail, Taken, Left, Fits, ArgsText, NameStyleOf, IsPathLookup,
         LookupBasename, Line, PidText;
    LineIs(InkOf(cfg, theme), cfg, lib, st.Value(), x);
    var pid, name := PidText(x.ev.pid), NameOf(lib, x);
    var pidPad, namePad := 0, 0;
    if cfg.aligned {
      st.pidWidth := Max(st.pidWidth, |pid|);
      st.nameWidth := Max(st.nameWidth, |name|);
      pidPad, namePad := st.pidWidth - |pid|, st.nameWidth - |name|;
    }
    var base := FindLookupBasename(name, x.call);
    var continues := cfg.groupLookups && base.Some? && base == st.lastBasename && st.lastPid == Some(x.ev.pid);
    var dim := cfg.dimLookups && cfg.color && x.ev.ret == RET_ENOENT && IsPathLookup(name);
    r := WriteColumns(w, cfg.color, theme, lib, x.ev, pid, pidPad, continues, NameStyleOf(cfg, x.category, dim), name,
      namePad, ArgsText(x.call, lib.utf8), dim);
    if r.Ok? && base.Some? {
      st.lastBasename := base;
      st.lastPid := Some(x.ev.pid);
    }
  }
}
