/**
 * A plain line can be read back: the name, the text of every argument, the return value, the errno and the duration,
 * whatever strings the tracee passed. No path or argv entry can make a line say something else.
 */
module LineReader {
  import opened Prelude
  import opened TracerModel
  import opened Text
  import opened Escape
  import opened Render
  import opened Terminal
  import opened Pretty
  import opened PrettyRuns

  // The reader.

  predicate StartsWith(s: string, head: string) { |head| <= |s| && s[..|head|] == head }

  /** What follows the items of a list whose bracket has been read. */
  function AfterItems(s: string): (r: Option<string>)
    ensures r.Some? ==> |r.value| < |s|
    decreases |s|
  {
    if !StartsWith(s, "\"") then None
    else
      var item := ReadQuoted(s[1..]);
      if item.None? then None
      else if StartsWith(item.value.1, "]") then Some(item.value.1[1..])
      else if StartsWith(item.value.1, ", ") then AfterItems(item.value.1[2..])
      else None
  }

  /** What follows a run of characters that neither separate arguments nor close the list. */
  function AfterWord(s: string): (r: string)
    ensures |r| <= |s|
  {
    if |s| == 0 || s[0] == ',' || s[0] == ')' then s else AfterWord(s[1..])
  }

  /** What follows the argument at the front of a text. */
  function AfterArg(s: string): (r: Option<string>)
    ensures r.Some? ==> |r.value| <= |s|
  {
    if StartsWith(s, "\"") then
      var text := ReadQuoted(s[1..]);
      if text.None? then None
      else if StartsWith(text.value.1, "...") then Some(text.value.1[3..])
      else Some(text.value.1)
    else if StartsWith(s, "[]") then Some(s[2..])
    else if StartsWith(s, "[") then AfterItems(s[1..])
    else Some(AfterWord(s))
  }

  /** The texts of a non-empty argument list whose parenthesis has been read, and what follows the closing one. */
  function ReadSome(s: string): (r: Option<(seq<string>, string)>)
    decreases |s|
  {
    var rest := AfterArg(s);
    if rest.None? then None
    else
      var text := s[..|s| - |rest.value|];
      if StartsWith(rest.value, ")") then Some(([text], rest.value[1..]))
      else if StartsWith(rest.value, ", ") then
        var more := ReadSome(rest.value[2..]);
        if more.None? then None else Some(([text] + more.value.0, more.value.1))
      else None
  }

  function ReadArgs(s: string): Option<(seq<string>, string)> {
    if StartsWith(s, ")") then Some(([], s[1..])) else ReadSome(s)
  }

  function Until(s: string, stop: char): (r: string)
    ensures |r| <= |s|
  {
    if |s| == 0 || s[0] == stop then "" else [s[0]] + Until(s[1..], stop)
  }

  function TrimSpaces(s: string): string {
    if |s| > 0 && s[|s| - 1] == ' ' then TrimSpaces(s[..|s| - 1]) else s
  }

  function LastName(s: string): string {
    if |s| > 0 && NameChar(s[|s| - 1]) then LastName(s[..|s| - 1]) + [s[|s| - 1]] else ""
  }

  /** What follows the last `stop`. */
  function AfterLast(s: string, stop: char): (r: string)
    ensures |r| <= |s|
  {
    if |s| == 0 || s[|s| - 1] == stop then "" else AfterLast(s[..|s| - 1], stop) + [s[|s| - 1]]
  }

  datatype Reading =
    Reading(name: string, args: seq<string>, ret: int, errno: Option<(string, string)>, duration: string)

  /** The symbol and the description before the duration, if they are there. */
  function ReadErrno(s: string): Option<Option<(string, string)>> {
    if s == "" then Some(None)
    else
      var symbol := Until(s, ' ');
      if |s| < |symbol| + 4 || s[|symbol|..|symbol| + 2] != " (" || s[|s| - 2..] != ") " then None
      else Some(Some((symbol, s[|symbol| + 2..|s| - 2])))
  }

  /** What follows the return value and a space: the errno, if there is one, and the duration. */
  function ReadTail(s: string): Option<(Option<(string, string)>, string)> {
    var after := AfterLast(s, '<');
    if |after| == |s| || |after| < 2 || after[|after| - 2..] != ">\n" then None
    else
      match ReadErrno(s[..|s| - |after| - 1])
      case None => None
      case Some(errno) => Some((errno, after[..|after| - 2]))
  }

  /** What follows the argument list and the sign. */
  function ReadResult(s: string): Option<(int, Option<(string, string)>, string)> {
    var ret := Until(s, ' ');
    if |ret| == |s| then None
    else
      match ReadTail(s[|ret| + 1..])
      case None => None
      case Some((errno, duration)) => Some((ReadDecimal(ret), errno, duration))
  }

  function ReadLine(line: string): Option<Reading> {
    var head := Until(line, '(');
    if |head| == |line| then None
    else
      var args := ReadArgs(line[|head| + 1..]);
      if args.None? || !StartsWith(args.value.1, " = ") then None
      else
        match ReadResult(args.value.1[3..])
        case None => None
        case Some((ret, errno, duration)) => Some(Reading(LastName(TrimSpaces(head)), args.value.0, ret, errno, duration))
  }

  /** What a line should say. The errno is looked up for values that are the negation of a positive 32-bit number. */
  function ReadingOf(lib: Library, x: Shown): Reading {
    Reading(lib.name(x.ev.nr), RenderAll(x.call.args, lib.utf8), x.ev.ret,
            if -0x8000_0000 < x.ev.ret < 0 then lib.errno(-x.ev.ret) else None, lib.duration(x.ev.duration))
  }

  // One argument.

  /** What can follow an argument. */
  predicate Delimited(tail: string) { |tail| > 0 && (tail[0] == ',' || tail[0] == ')') }

  predicate IsWord(s: string) {
    |s| > 0 && s[0] != '"' && s[0] != '[' && forall i :: 0 <= i < |s| ==> s[i] != ',' && s[i] != ')'
  }

  lemma {:induction false} AfterWordSkips(s: string, tail: string)
    requires Delimited(tail) && forall i :: 0 <= i < |s| ==> s[i] != ',' && s[i] != ')'
    ensures AfterWord(s + tail) == tail
  {
    if |s| == 0 {
      assert s + tail == tail;
    } else {
      AfterWordSkips(s[1..], tail);
      assert (s + tail)[1..] == s[1..] + tail;
    }
  }

  lemma WordSkipped(s: string, tail: string)
    requires IsWord(s) && Delimited(tail)
    ensures AfterArg(s + tail) == Some(tail)
  {
    AfterWordSkips(s, tail);
    assert (s + tail)[0] == s[0];
  }

  lemma QuotedSkipped(s: string, dots: string, tail: string)
    requires Delimited(tail) && (dots == "" || dots == "...")
    ensures AfterArg(Quoted(s) + dots + tail) == Some(tail)
  {
    hide ReadQuoted, Escaped;
    QuotedReadBack(s, dots + tail);
    var all := Quoted(s) + dots + tail;
    assert all == Quoted(s) + (dots + tail);
    assert all[..1] == "\"";
    if dots == "..." {
      assert (dots + tail)[..3] == dots && (dots + tail)[3..] == tail;
    } else {
      assert dots + tail == tail;
    }
  }

  lemma {:induction false} ItemsSkipped(entries: seq<string>, tail: string)
    requires |entries| > 0
    ensures AfterItems(ItemsText(entries) + "]" + tail) == Some(tail)
  {
    hide ReadQuoted, Escaped;
    var s := ItemsText(entries) + "]" + tail;
    if |entries| == 1 {
      OneItemSkipped(entries[0], "]" + tail);
      assert s == Quoted(entries[0]) + ("]" + tail);
      assert ("]" + tail)[..1] == "]" && ("]" + tail)[1..] == tail;
    } else {
      var more := ItemsText(entries[1..]) + "]" + tail;
      ItemsSkipped(entries[1..], tail);
      OneItemSkipped(entries[0], ", " + more);
      assert s == Quoted(entries[0]) + (", " + more);
      assert (", " + more)[..2] == ", " && (", " + more)[2..] == more;
      assert (", " + more)[..1] == "," != "]";
    }
  }

  lemma OneItemSkipped(item: string, rest: string)
    ensures var s := Quoted(item) + rest;
            StartsWith(s, "\"") && ReadQuoted(s[1..]) == Some((item, rest))
  {
    hide ReadQuoted, Escaped;
    QuotedReadBack(item, rest);
    assert (Quoted(item) + rest)[..1] == "\"";
  }

  lemma ListSkipped(entries: seq<string>, tail: string)
    ensures AfterArg(ListText(entries) + tail) == Some(tail)
  {
    hide ItemsText, AfterItems;
    var s := ListText(entries) + tail;
    if |entries| == 0 {
      assert ListText(entries) == "[]" by { EmptyList(); }
      assert s[..2] == "[]" && s[2..] == tail && s[..1] == "[";
    } else {
      ItemsSkipped(entries, tail);
      assert s[1..] == ItemsText(entries) + "]" + tail;
      assert s[..1] == "[";
      assert s[1] == '"' by { ItemsStart(entries); }
      assert s[..2][1] == '"';
    }
  }

  lemma EmptyList()
    ensures ListText([]) == "[]"
  {
  }

  lemma ItemsStart(entries: seq<string>)
    requires |entries| > 0
    ensures |ItemsText(entries)| > 0 && ItemsText(entries)[0] == '"'
  {
  }

  lemma DigitsAreWord(n: nat, radix: nat)
    requires Radix(radix)
    ensures IsWord(Digits(n, radix)) && IsWord("0x" + Digits(n, radix)) && IsWord("0o" + Digits(n, radix))
    ensures IsWord("-" + Digits(n, radix))
  {
    var s := Digits(n, radix);
    assert forall i :: 0 <= i < |s| ==> DigitValue(s[i]) < radix;
    assert DigitValue(',') == 16 && DigitValue(')') == 16 && DigitValue('"') == 16 && DigitValue('[') == 16;
  }

  lemma {:induction false} NamesAreWord(names: seq<Name>)
    requires |names| > 0
    ensures IsWord(Join(names, "|"))
  {
    assert AllNameChars(names[0]) && NameChar(names[0][0]);
    if |names| > 1 {
      NamesAreWord(names[1..]);
    }
  }

  lemma ArgSkipped(arg: Arg, utf8: Utf8, tail: string)
    requires Delimited(tail)
    ensures AfterArg(RenderArg(arg, utf8) + tail) == Some(tail)
  {
    hide AfterArg, Quoted, ListText, IsWord, Digits;
    match arg
    case Path(s) =>
      QuotedSkipped(s, "", tail);
      assert Quoted(s) + "" == Quoted(s);
    case Bytes(inline, total) => QuotedSkipped(utf8(inline), if |inline| < total then "..." else "", tail);
    case Argv(entries) => ListSkipped(entries, tail);
    case FlagNames(names) =>
      if names == [] {
        FixedWords();
      } else {
        NamesAreWord(names);
      }
      WordSkipped(RenderArg(arg, utf8), tail);
    case _ =>
      NumbersAreWords(arg, utf8);
      WordSkipped(RenderArg(arg, utf8), tail);
  }

  lemma FixedWords()
    ensures IsWord("0") && IsWord("AT_FDCWD") && IsWord("-1") && IsWord("NULL")
  {
  }

  lemma NumbersAreWords(arg: Arg, utf8: Utf8)
    requires arg.FdArg? || arg.Mode? || arg.Int? || arg.Uint? || arg.Hex? || arg.Ptr?
    ensures IsWord(RenderArg(arg, utf8))
  {
    hide IsWord, Digits;
    FixedWords();
    match arg
    case FdArg(fd) => if fd.Num? { DigitsAreWord(fd.n, 10); }
    case Mode(m) => DigitsAreWord(m, 8);
    case Int(i) => DigitsAreWord(if i < 0 then -i else i, 10);
    case Uint(u) => DigitsAreWord(u, 10);
    case Hex(n) => DigitsAreWord(n, 16);
    case Ptr(p) => DigitsAreWord(p, 16);
  }

  // The argument list.

  lemma ArgStarts(arg: Arg, utf8: Utf8)
    ensures |RenderArg(arg, utf8)| > 0 && RenderArg(arg, utf8)[0] != ')'
  {
    hide IsWord, Digits;
    match arg
    case Path(_) =>
    case Bytes(_, _) =>
    case Argv(_) =>
    case FlagNames(names) =>
      FixedWords();
      if names != [] {
        NamesAreWord(names);
      }
      WordStarts(RenderArg(arg, utf8));
    case _ =>
      NumbersAreWords(arg, utf8);
      WordStarts(RenderArg(arg, utf8));
  }

  lemma WordStarts(s: string)
    requires IsWord(s)
    ensures |s| > 0 && s[0] != ')'
  {
  }

  lemma LastArgRead(arg: Arg, utf8: Utf8, tail: string)
    ensures ReadSome(RenderArg(arg, utf8) + (")" + tail)) == Some(([RenderArg(arg, utf8)], tail))
  {
    hide RenderArg, AfterArg;
    var text, rest := RenderArg(arg, utf8), ")" + tail;
    ArgSkipped(arg, utf8, rest);
    assert (text + rest)[..|text|] == text;
    assert rest[..1] == ")" && rest[1..] == tail;
  }

  lemma OneArgRead(arg: Arg, utf8: Utf8, more: string, texts: seq<string>, tail: string)
    requires ReadSome(more) == Some((texts, tail))
    ensures ReadSome(RenderArg(arg, utf8) + (", " + more)) == Some(([RenderArg(arg, utf8)] + texts, tail))
  {
    hide RenderArg, AfterArg;
    var text, rest := RenderArg(arg, utf8), ", " + more;
    ArgSkipped(arg, utf8, rest);
    assert (text + rest)[..|text|] == text;
    assert rest[..2] == ", " && rest[2..] == more && rest[..1] == ",";
  }

  lemma {:induction false} SomeReadBack(args: seq<(string, Arg)>, utf8: Utf8, tail: string)
    requires |args| > 0
    ensures ReadSome(Join(RenderAll(args, utf8), ", ") + (")" + tail)) == Some((RenderAll(args, utf8), tail))
  {
    hide RenderArg, ReadSome;
    var texts := RenderAll(args, utf8);
    if |args| == 1 {
      LastArgRead(args[0].1, utf8, tail);
      assert texts == [RenderArg(args[0].1, utf8)];
    } else {
      var more := Join(texts[1..], ", ") + (")" + tail);
      assert texts[1..] == RenderAll(args[1..], utf8);
      SomeReadBack(args[1..], utf8, tail);
      OneArgRead(args[0].1, utf8, more, texts[1..], tail);
      JoinStep(texts, ")" + tail);
    }
  }

  lemma JoinStep(texts: seq<string>, end: string)
    requires |texts| > 1
    ensures Join(texts, ", ") + end == texts[0] + (", " + (Join(texts[1..], ", ") + end))
  {
  }

  lemma ArgsReadBack(call: Call, utf8: Utf8, tail: string)
    ensures ReadArgs(ArgsText(call, utf8) + (")" + tail)) == Some((RenderAll(call.args, utf8), tail))
  {
    hide RenderArg, ReadSome;
    var s := ArgsText(call, utf8) + (")" + tail);
    if |call.args| == 0 {
      assert s == ")" + tail && s[..1] == ")" && s[1..] == tail;
    } else {
      SomeReadBack(call.args, utf8, tail);
      ArgStarts(call.args[0].1, utf8);
      assert s[0] == RenderArg(call.args[0].1, utf8)[0];
    }
  }

  // The line.

  lemma {:induction false} UntilStops(s: string, stop: char, rest: string)
    requires stop !in s
    ensures Until(s + ([stop] + rest), stop) == s
  {
    var all := s + ([stop] + rest);
    if |s| > 0 {
      UntilStops(s[1..], stop, rest);
      assert all[1..] == s[1..] + ([stop] + rest);
      assert s == [s[0]] + s[1..];
    }
  }

  lemma {:induction false} SpacesTrimmed(s: string, n: nat)
    requires |s| > 0 && s[|s| - 1] != ' '
    ensures TrimSpaces(s + Spaces(n)) == s
  {
    if n == 0 {
      assert s + Spaces(0) == s;
    } else {
      SpacesTrimmed(s, n - 1);
      SpacesEnd(n);
      var all := s + Spaces(n);
      assert all[..|all| - 1] == s + Spaces(n - 1);
    }
  }

  lemma {:induction false} SpacesEnd(n: nat)
    requires n > 0
    ensures Spaces(n) == Spaces(n - 1) + " "
  {
    if n > 1 {
      SpacesEnd(n - 1);
    }
  }

  lemma {:induction false} NameTaken(before: string, name: string)
    requires AllNameChars(name) && |before| > 0 && !NameChar(before[|before| - 1])
    ensures LastName(before + name) == name
  {
    var all := before + name;
    if |name| == 0 {
      assert all == before;
    } else {
      var n := |name| - 1;
      NameTaken(before, name[..n]);
      assert all[..|all| - 1] == before + name[..n];
      assert name == name[..n] + [name[n]];
    }
  }

  lemma NameReadBack(column: string, style: NameStyle, name: Name, pad: nat)
    ensures LastName(TrimSpaces(column + NameColumn(Plain, style, name, pad))) == name
  {
    hide LastName, TrimSpaces, Spaces;
    assert AllNameChars(name);
    assert NameChar(name[|name| - 1]) && !NameChar(' ');
    var before := column + " ";
    NameTaken(before, name);
    SpacesTrimmed(before + name, pad);
    assert column + NameColumn(Plain, style, name, pad) == before + name + Spaces(pad);
  }

  lemma DecimalHasNoSpace(i: int)
    ensures ' ' !in Decimal(i)
  {
    var s := Digits(if i < 0 then -i else i, 10);
    assert DigitValue(' ') == 16;
    assert forall k :: 0 <= k < |s| ==> s[k] != ' ';
  }

  lemma {:induction false} AfterLastStops(before: string, stop: char, s: string)
    requires stop !in s
    ensures AfterLast(before + [stop] + s, stop) == s
  {
    var all := before + [stop] + s;
    if |s| > 0 {
      var n := |s| - 1;
      AfterLastStops(before, stop, s[..n]);
      assert all[..|all| - 1] == before + [stop] + s[..n];
      assert s == s[..n] + [s[n]];
    }
  }

  lemma NameHasNoSpace(name: Name)
    ensures ' ' !in name
  {
    assert AllNameChars(name) && !NameChar(' ');
  }

  /** The text before the duration, as the plain return column has it. */
  function ErrnoText(errno: Option<(Name, Clean)>): string {
    match errno
    case None => ""
    case Some((symbol, desc)) => symbol + " (" + desc + ") "
  }

  lemma ErrnoReadBack(errno: Option<(Name, Clean)>)
    ensures ReadErrno(ErrnoText(errno)) == Some(errno)
  {
    hide Until;
    if errno.Some? {
      var (symbol, desc) := errno.value;
      var s := ErrnoText(errno);
      NameHasNoSpace(symbol);
      assert s == symbol + ([' '] + ("(" + desc + ") "));
      UntilStops(symbol, ' ', "(" + desc + ") ");
      assert s[|symbol|..|symbol| + 2] == " (" && s[|s| - 2..] == ") " && s[|symbol| + 2..|s| - 2] == desc;
    }
  }

  lemma TailReadBack(errno: Option<(Name, Clean)>, duration: Span)
    ensures ReadTail(ErrnoText(errno) + "<" + duration + ">\n") == Some((errno, duration))
  {
    hide AfterLast, ReadErrno, ErrnoText;
    var s, after := ErrnoText(errno) + "<" + duration + ">\n", duration + ">\n";
    assert s == ErrnoText(errno) + ['<'] + after;
    AfterLastStops(ErrnoText(errno), '<', after);
    ErrnoReadBack(errno);
    assert after[|after| - 2..] == ">\n" && after[..|after| - 2] == duration;
    assert s[..|s| - |after| - 1] == ErrnoText(errno);
  }

  lemma ResultIs(lib: Library, ret: int, duration: Span)
    ensures RetColumn(Plain, lib, ret, false) + Tail(Plain, duration)
         == Decimal(ret) + ([' '] + (ErrnoText(ErrnoOfRet(lib, ret)) + "<" + duration + ">\n"))
  {
    hide Decimal;
    match ErrnoOfRet(lib, ret)
    case None =>
      assert RetColumn(Plain, lib, ret, false) + Tail(Plain, duration) == Decimal(ret) + Tail(Plain, duration);
      assert "" + "<" + duration + ">\n" == "<" + duration + ">\n";
    case Some((symbol, desc)) =>
      assert RetColumn(Plain, lib, ret, false) == Decimal(ret) + " " + symbol + " (" + desc + ")";
  }

  lemma ResultReadBack(lib: Library, ret: int, duration: Span)
    ensures ReadResult(RetColumn(Plain, lib, ret, false) + Tail(Plain, duration))
         == Some((ret, if -0x8000_0000 < ret < 0 then lib.errno(-ret) else None, duration))
  {
    hide Decimal, ReadDecimal, Until, ReadTail, ErrnoText, RetColumn, Tail;
    var text, tail := Decimal(ret), ErrnoText(ErrnoOfRet(lib, ret)) + "<" + duration + ">\n";
    ResultIs(lib, ret, duration);
    DecimalHasNoSpace(ret);
    DecimalReadBack(ret);
    UntilStops(text, ' ', tail);
    TailReadBack(ErrnoOfRet(lib, ret), duration);
    assert (text + ([' '] + tail))[|text| + 1..] == tail;
  }

  lemma HeadRead(head: string, args: string, rest: string)
    requires NoParen(head)
    ensures var line := head + ArgsColumn(args) + rest;
            Until(line, '(') == head && |head| < |line| && line[|head| + 1..] == args + (")" + (" = " + rest))
  {
    hide Until;
    var line := head + ArgsColumn(args) + rest;
    UntilStops(head, '(', args + (")" + (" = " + rest)));
    assert line == head + (['('] + (args + (")" + (" = " + rest))));
  }

  /**
   * Whatever the tracee passes, the name, the argument texts, the return value, the errno and the duration of a call can
   * be read off its plain line, in any state of the formatter.
   */
  lemma LineReadBack(cfg: Pretty.Config, lib: Library, st: State, x: Shown)
    ensures ReadLine(Line(Plain, cfg.(color := false), lib, st, x)) == Some(ReadingOf(lib, x))
  {
    hide PidColumn, NameColumn, RetColumn, Tail, PidText, NameStyleOf, BasenameOf, ArgsText, ReadArgs, Until, LastName,
         TrimSpaces, ReadResult, RenderAll, ArgsColumn, NoParen;
    var off := cfg.(color := false);
    var pid, name := PidText(x.ev.pid), NameOf(lib, x);
    var wide := Widened(off, st, pid, name);
    var c := Columns(Plain, off, lib, st, x);
    var rest := c.3 + c.4;
    PidColumnWidth(x.ev.pid, Pad(off, wide.pidWidth, pid), Continues(off, wide, BasenameOf(lib, x), x.ev.pid));
    NameColumnWidth(NameStyleOf(off, x.category, false), name, Pad(off, wide.nameWidth, name));
    NoParens(c.0, c.1);
    var args := ArgsText(x.call, lib.utf8);
    HeadRead(c.0 + c.1, args, rest);
    assert Line(Plain, off, lib, st, x) == c.0 + c.1 + ArgsColumn(args) + rest;
    ArgsReadBack(x.call, lib.utf8, " = " + rest);
    NameReadBack(c.0, NameStyleOf(off, x.category, false), name, Pad(off, wide.nameWidth, name));
    ResultReadBack(lib, x.ev.ret, lib.duration(x.ev.duration));
    assert (" = " + rest)[..3] == " = " && (" = " + rest)[3..] == rest;
  }

  lemma NoParens(a: string, b: string)
    requires NoParen(a) && NoParen(b)
    ensures NoParen(a + b)
  {
  }
}
