/** Decoded calls, the text of one argument, and the lookup test: format_common.rs and the types of decoder.rs. */
module Render {
  import opened Prelude
  import opened Text
  import opened Escape

  /** Text that can go to a terminal as it is and stays on its line. */
  type Clean = s: string | IsClean(s) witness ""

  datatype Fd = AtFdCwd | Invalid | Num(n: nat)

  datatype Arg =
    | Path(text: string)
    | FdArg(fd: Fd)
    | FlagNames(names: seq<Name>)
    | Mode(m: nat)
    | Int(i: int)
    | Uint(u: nat)
    | Bytes(inline: seq<byte>, total: nat)
    | Hex(n: nat)
    | Ptr(p: nat)
    | Argv(entries: seq<string>)

  /** A decoded call: labelled arguments and the return value. */
  datatype Call = Call(args: seq<(string, Arg)>, ret: int)

  function RenderArg(arg: Arg, utf8: Utf8): string {
    match arg
    case Path(s) => Quoted(s)
    case FdArg(AtFdCwd) => "AT_FDCWD"
    case FdArg(Invalid) => "-1"
    case FdArg(Num(n)) => Decimal(n)
    case FlagNames(names) => if names == [] then "0" else Join(names, "|")
    case Mode(m) => "0o" + Digits(m, 8)
    case Int(i) => Decimal(i)
    case Uint(u) => Decimal(u)
    case Bytes(inline, total) => Quoted(utf8(inline)) + if |inline| < total then "..." else ""
    case Ptr(p) => if p == 0 then "NULL" else "0x" + Digits(p, 16)
    case Hex(n) => "0x" + Digits(n, 16)
    case Argv(entries) => ListText(entries)
  }

  predicate AllPrintable(s: string) { forall i :: 0 <= i < |s| ==> Printable(s[i]) }

  lemma PrintableIsClean(s: string)
    requires AllPrintable(s)
    ensures IsClean(s)
  {
  }

  lemma DigitsPrintable(n: nat, radix: nat)
    requires Radix(radix)
    ensures AllPrintable(Digits(n, radix))
  {
    var s := Digits(n, radix);
    assert forall i :: 0 <= i < |s| ==> DigitValue(s[i]) < radix;
  }

  lemma DecimalPrintable(i: int)
    ensures AllPrintable(Decimal(i))
  {
    DigitsPrintable(if i < 0 then -i else i, 10);
  }

  lemma NamePrintable(s: string)
    requires AllNameChars(s)
    ensures AllPrintable(s)
  {
  }

  lemma {:induction false} JoinPrintable(parts: seq<string>, sep: string)
    requires AllPrintable(sep) && forall p :: p in parts ==> AllPrintable(p)
    ensures AllPrintable(Join(parts, sep))
  {
    if |parts| == 1 {
      assert parts[0] in parts;
    } else if |parts| > 1 {
      assert parts[0] in parts;
      JoinPrintable(parts[1..], sep);
    }
  }

  /**
   * Whatever the tracee put in its memory, a rendered argument is printable ASCII: it can neither reach the terminal
   * as a control sequence nor break its line.
   */
  lemma RenderedPrintable(arg: Arg, utf8: Utf8)
    ensures AllPrintable(RenderArg(arg, utf8))
  {
    hide Digits, Decimal;
    match arg
    case Path(_) =>
    case Bytes(_, _) =>
    case FdArg(fd) => if fd.Num? { DecimalPrintable(fd.n); }
    case FlagNames(names) =>
      forall p | p in names ensures AllPrintable(p) { NamePrintable(p); }
      JoinPrintable(names, "|");
    case Mode(m) => DigitsPrintable(m, 8);
    case Int(i) => DecimalPrintable(i);
    case Uint(u) => DecimalPrintable(u);
    case Hex(n) => DigitsPrintable(n, 16);
    case Ptr(p) => DigitsPrintable(p, 16);
    case Argv(entries) => ItemsPrintable(entries);
  }

  function RenderAll(args: seq<(string, Arg)>, utf8: Utf8): (texts: seq<string>)
    ensures |texts| == |args|
  {
    if |args| == 0 then [] else [RenderArg(args[0].1, utf8)] + RenderAll(args[1..], utf8)
  }

  function ArgsText(call: Call, utf8: Utf8): string { Join(RenderAll(call.args, utf8), ", ") }

  lemma {:induction false} RenderAllPrintable(args: seq<(string, Arg)>, utf8: Utf8)
    ensures forall t :: t in RenderAll(args, utf8) ==> AllPrintable(t)
  {
    if |args| > 0 {
      RenderedPrintable(args[0].1, utf8);
      RenderAllPrintable(args[1..], utf8);
    }
  }

  lemma ArgsPrintable(call: Call, utf8: Utf8)
    ensures AllPrintable(ArgsText(call, utf8))
    ensures IsClean(ArgsText(call, utf8))
  {
    RenderAllPrintable(call.args, utf8);
    JoinPrintable(RenderAll(call.args, utf8), ", ");
    PrintableIsClean(ArgsText(call, utf8));
  }

  // Reading an argument back, given which kind the decoder of that call produces.

  function ReadPath(s: string): Option<string> {
    if |s| == 0 then None
    else
      var r := ReadQuoted(s[1..]);
      if r.Some? && r.value.1 == "" then Some(r.value.0) else None
  }

  /** A number behind its prefix. */
  function ReadPrefixed(prefix: string, s: string, radix: nat): Option<nat> {
    if prefix < s then Some(FromDigits(s[|prefix|..], radix)) else None
  }

  /** A pointer: NULL, or a number that is not zero. */
  function ReadAddress(s: string): Option<nat> {
    if s == "NULL" then Some(0) else if ReadPrefixed("0x", s, 16) == Some(0) then None else ReadPrefixed("0x", s, 16)
  }

  function ReadFd(s: string): Fd {
    if s == "AT_FDCWD" then AtFdCwd else if s == "-1" then Invalid else Num(FromDigits(s, 10))
  }

  /** The kinds that lose nothing on the page. */
  predicate LosslessKind(arg: Arg) { !arg.FlagNames? && !arg.Bytes? }

  function ReadLike(like: Arg, s: string): Option<Arg> {
    match like
    case Path(_) => (match ReadPath(s) case Some(t) => Some(Path(t)) case None => None)
    case Argv(_) => (match ReadList(s) case Some(es) => Some(Argv(es)) case None => None)
    case FdArg(_) => Some(FdArg(ReadFd(s)))
    case Mode(_) => (match ReadPrefixed("0o", s, 8) case Some(m) => Some(Mode(m)) case None => None)
    case Int(_) => Some(Int(ReadDecimal(s)))
    case Uint(_) => Some(Uint(FromDigits(s, 10)))
    case Ptr(_) => (match ReadAddress(s) case Some(p) => Some(Ptr(p)) case None => None)
    case Hex(_) => (match ReadPrefixed("0x", s, 16) case Some(n) => Some(Hex(n)) case None => None)
    case FlagNames(_) => None
    case Bytes(_, _) => None
  }

  /** The names of a flag set; a set without names is shown as 0. */
  function ReadNames(s: string): seq<string> { if s == "0" then [] else Split(s, '|') }

  /** The list of names can be read out of the text, unless it is the one name that reads as none. */
  lemma FlagNamesReadBack(names: seq<Name>, utf8: Utf8)
    ensures ReadNames(RenderArg(FlagNames(names), utf8)) == names <==> names != ["0"]
  {
    if names != [] {
      forall p | p in names ensures '|' !in p { assert AllNameChars(p) && !NameChar('|'); }
      SplitOfJoin(names, '|');
      if Join(names, "|") == "0" {
        SplitPlain("0", '|');
      }
    }
  }

  lemma NumberReadBack(prefix: string, n: nat, radix: nat)
    requires Radix(radix)
    ensures ReadPrefixed(prefix, prefix + Digits(n, radix), radix) == Some(n)
  {
    DigitsReadBack(n, radix);
    assert (prefix + Digits(n, radix))[|prefix|..] == Digits(n, radix);
  }

  lemma DigitsAreNoWord(n: nat, radix: nat)
    requires Radix(radix)
    ensures Digits(n, radix) != "AT_FDCWD" && Digits(n, radix) != "-1" && "0x" + Digits(n, radix) != "NULL"
  {
    var s := Digits(n, radix);
    assert DigitValue(s[0]) < radix;
    assert DigitValue('A') == 16 && DigitValue('-') == 16;
    assert ("0x" + s)[0] == '0' && "NULL"[0] == 'N';
  }

  lemma PathReadBack(s: string)
    ensures ReadPath(Quoted(s)) == Some(s)
  {
    QuotedReadBack(s, "");
    assert Quoted(s) + "" == Quoted(s);
  }

  /** No two values of one kind are shown alike. */
  lemma ArgReadBack(arg: Arg, like: Arg, utf8: Utf8)
    requires LosslessKind(arg) && SameKind(arg, like)
    ensures ReadLike(like, RenderArg(arg, utf8)) == Some(arg)
  {
    match arg
    case Path(s) => PathReadBack(s);
    case Argv(entries) => ListReadBack(entries);
    case FdArg(fd) =>
      if fd.Num? {
        DigitsAreNoWord(fd.n, 10);
        DigitsReadBack(fd.n, 10);
      }
    case Mode(m) => NumberReadBack("0o", m, 8);
    case Int(i) => DecimalReadBack(i);
    case Uint(u) => DigitsReadBack(u, 10);
    case Ptr(p) => NumberReadBack("0x", p, 16); DigitsAreNoWord(p, 16);
    case Hex(n) => NumberReadBack("0x", n, 16);
  }

  /** The text of a buffer, and whether there was more of it than is shown. */
  function ReadBuffer(s: string): Option<(string, bool)> {
    if |s| == 0 || s[0] != '"' then None
    else
      match ReadQuoted(s[1..])
      case Some((text, "")) => Some((text, false))
      case Some((text, "...")) => Some((text, true))
      case _ => None
  }

  /** The dots are there exactly when the buffer is longer than what was read of it. */
  lemma BytesReadBack(inline: seq<byte>, total: nat, utf8: Utf8)
    ensures ReadBuffer(RenderArg(Bytes(inline, total), utf8)) == Some((utf8(inline), |inline| < total))
  {
    hide Escaped, ReadQuoted;
    QuotedReadBack(utf8(inline), if |inline| < total then "..." else "");
  }

  predicate SameKind(a: Arg, b: Arg) {
    (a.Path? <==> b.Path?) && (a.Argv? <==> b.Argv?) && (a.FdArg? <==> b.FdArg?) && (a.Mode? <==> b.Mode?)
    && (a.Int? <==> b.Int?) && (a.Uint? <==> b.Uint?) && (a.Ptr? <==> b.Ptr?) && (a.Hex? <==> b.Hex?)
    && (a.Bytes? <==> b.Bytes?)
  }

  // Lookups.

  predicate IsPathLookup(name: string) {
    name == "openat" || name == "open" || name == "newfstatat" || name == "access"
    || name == "faccessat" || name == "stat" || name == "statx"
  }

  /** The last component of a path: what follows its last slash, or all of it. */
  function Basename(path: string): (b: string)
    ensures '/' !in b && |b| <= |path| && path[|path| - |b|..] == b
    ensures |b| < |path| ==> path[|path| - |b| - 1] == '/'
  {
    if |path| == 0 || path[|path| - 1] == '/' then ""
    else Basename(path[..|path| - 1]) + [path[|path| - 1]]
  }

  predicate IsPathname(arg: (string, Arg)) { arg.0 == "pathname" && arg.1.Path? }

  function LookupBasename(name: string, call: Call): Option<string> {
    if IsPathLookup(name) then FirstBasename(call.args) else None
  }

  function FirstBasename(args: seq<(string, Arg)>): Option<string> {
    if |args| == 0 then None
    else if IsPathname(args[0]) then Some(Basename(args[0].1.text))
    else FirstBasename(args[1..])
  }

  /** A list carries a basename exactly when some argument is a pathname; the first one gives it. */
  lemma {:induction false} FirstBasenameIs(args: seq<(string, Arg)>, k: nat)
    requires forall j :: 0 <= j < k && j < |args| ==> !IsPathname(args[j])
    ensures k >= |args| ==> FirstBasename(args) == None
    ensures k < |args| && IsPathname(args[k]) ==> FirstBasename(args) == Some(Basename(args[k].1.text))
  {
    hide IsPathname, Basename;
    if |args| > 0 && k > 0 {
      var rest := args[1..];
      assert forall j :: 0 <= j < k - 1 && j < |rest| ==> rest[j] == args[j + 1];
      FirstBasenameIs(rest, k - 1);
      assert k < |args| ==> rest[k - 1] == args[k];
    }
  }

  /** A pathname is a path that is labelled so. */
  predicate LabelledPath(arg: (string, Arg)) { arg.0 == "pathname" && arg.1.Path? }

  lemma PathnamesAreLabelled(arg: (string, Arg))
    ensures IsPathname(arg) <==> LabelledPath(arg)
  {
  }

  lemma {:induction false} HasBasename(args: seq<(string, Arg)>)
    ensures FirstBasename(args).Some? <==> exists k :: 0 <= k < |args| && LabelledPath(args[k])
  {
    hide IsPathname, LabelledPath, Basename;
    if |args| > 0 {
      HasBasename(args[1..]);
      PathnamesAreLabelled(args[0]);
      assert forall i :: 1 <= i < |args| ==> args[i] == args[1..][i - 1];
      if i :| 0 <= i < |args[1..]| && LabelledPath(args[1..][i]) {
        assert LabelledPath(args[i + 1]);
      }
    }
  }

  method FindLookupBasename(name: string, call: Call) returns (r: Option<string>)
    ensures r == LookupBasename(name, call)
  {
    if !IsPathLookup(name) {
      return None;
    }
    var i := 0;
    while i < |call.args|
      invariant 0 <= i <= |call.args|
      invariant forall j :: 0 <= j < i ==> !IsPathname(call.args[j])
    {
      if call.args[i].0 == "pathname" && call.args[i].1.Path? {
        FirstBasenameIs(call.args, i);
        return Some(Basename(call.args[i].1.text));
      }
      i := i + 1;
    }
    FirstBasenameIs(call.args, i);
    return None;
  }
}
