/**
 * Quoted text: the escaping that the argument renderer relies on, the list syntax it prints for argv, and a reader
 * that undoes both. A `char` is a Unicode scalar value.
 */
module Escape {
  import opened Prelude
  import opened Text

  predicate Printable(c: char) { 0x20 <= c as int <= 0x7e }

  /** One character as `char::escape_default` shows it. */
  function EscapeChar(c: char): (s: string)
    ensures |s| > 0 && s[0] != '"' && forall i :: 0 <= i < |s| ==> Printable(s[i])
  {
    if c == '\t' then "\\t"
    else if c == '\r' then "\\r"
    else if c == '\n' then "\\n"
    else if c == '\'' || c == '"' || c == '\\' then ['\\', c]
    else if Printable(c) then [c]
    else
      var hex := Digits(c as int, 16);
      assert forall i :: 0 <= i < |hex| ==> DigitValue(hex[i]) < 16;
      "\\u{" + hex + "}"
  }

  function Escaped(s: string): (t: string)
    ensures forall i :: 0 <= i < |t| ==> Printable(t[i])
  {
    if |s| == 0 then "" else EscapeChar(s[0]) + Escaped(s[1..])
  }

  function Quoted(s: string): string { "\"" + Escaped(s) + "\"" }

  /** The list text, the way a reader of the output sees it. */
  function ItemsText(entries: seq<string>): string {
    if |entries| == 0 then ""
    else if |entries| == 1 then Quoted(entries[0])
    else Quoted(entries[0]) + ", " + ItemsText(entries[1..])
  }

  function ListText(entries: seq<string>): string { "[" + ItemsText(entries) + "]" }

  // Reading it back.

  /** The run of digits up to a closing brace. */
  function HexRun(s: string): (n: nat)
    ensures n <= |s|
  {
    if |s| == 0 || s[0] == '}' then 0 else 1 + HexRun(s[1..])
  }

  function ReadScalar(s: string): Option<(char, string)> {
    var k := HexRun(s);
    var n := FromDigits(s[..k], 16);
    if k < |s| && (n < 0xD800 || 0xE000 <= n < 0x11_0000) then Some((n as char, s[k + 1..])) else None
  }

  function ReadChar(s: string): (r: Option<(char, string)>)
    ensures r.Some? ==> |r.value.1| < |s|
  {
    if |s| == 0 then None
    else if s[0] != '\\' then Some((s[0], s[1..]))
    else if |s| == 1 then None
    else if s[1] == 't' then Some(('\t', s[2..]))
    else if s[1] == 'r' then Some(('\r', s[2..]))
    else if s[1] == 'n' then Some(('\n', s[2..]))
    else if s[1] == '\'' || s[1] == '"' || s[1] == '\\' then Some((s[1], s[2..]))
    else if s[1] == 'u' && |s| > 2 && s[2] == '{' then ReadScalar(s[3..])
    else None
  }

  /** The text of a string literal whose opening quote has been read, and what follows it. */
  function ReadQuoted(s: string): (r: Option<(string, string)>)
    ensures r.Some? ==> |r.value.1| < |s|
    decreases |s|
  {
    if |s| == 0 then None
    else if s[0] == '"' then Some(("", s[1..]))
    else
      var head := ReadChar(s);
      if head.None? then None
      else
        var tail := ReadQuoted(head.value.1);
        if tail.None? then None else Some(([head.value.0] + tail.value.0, tail.value.1))
  }

  function ReadItems(s: string): Option<seq<string>>
    decreases |s|
  {
    if |s| == 0 || s[0] != '"' then None
    else
      var item := ReadQuoted(s[1..]);
      if item.None? then None
      else
        var rest := item.value.1;
        if rest == "]" then Some([item.value.0])
        else if |rest| < 2 || rest[..2] != ", " then None
        else
          var more := ReadItems(rest[2..]);
          if more.None? then None else Some([item.value.0] + more.value)
  }

  function ReadList(s: string): Option<seq<string>> {
    if s == "[]" then Some([])
    else if |s| == 0 || s[0] != '[' then None
    else ReadItems(s[1..])
  }

  lemma {:induction false} HexRunStops(hex: string, tail: string)
    requires forall i :: 0 <= i < |hex| ==> hex[i] != '}'
    ensures HexRun(hex + "}" + tail) == |hex|
  {
    var s := hex + "}" + tail;
    if |hex| > 0 {
      HexRunStops(hex[1..], tail);
      assert s[1..] == hex[1..] + "}" + tail;
    }
  }

  lemma ScalarReadBack(c: char, tail: string)
    ensures ReadScalar(Digits(c as int, 16) + "}" + tail) == Some((c, tail))
  {
    var hex := Digits(c as int, 16);
    assert DigitValue('}') == 16;
    HexRunStops(hex, tail);
    DigitsReadBack(c as int, 16);
    var s := hex + "}" + tail;
    assert s[..|hex|] == hex && s[|hex| + 1..] == tail;
  }

  /** `\u{`, the code point in lower-case hexadecimal digits without leading zeros, `}`. */
  predicate IsHexEscape(s: string, c: char) {
    && |s| > 4 && s[..3] == "\\u{" && s[|s| - 1] == '}'
    && var hex := s[3..|s| - 1];
       FromDigits(hex, 16) == c as int && (|hex| > 1 ==> hex[0] != '0') && forall d :: d in hex ==> DigitValue(d) < 16
  }

  /** The text of every escape: six have two characters, printable ASCII stands for itself, the rest is hex. */
  lemma EscapesExactly(c: char)
    ensures c == '\t' ==> EscapeChar(c) == "\\t"
    ensures c == '\r' ==> EscapeChar(c) == "\\r"
    ensures c == '\n' ==> EscapeChar(c) == "\\n"
    ensures c in "'\"\\" ==> EscapeChar(c) == ['\\', c]
    ensures ' ' <= c <= '~' && c !in "'\"\\" ==> EscapeChar(c) == [c]
    ensures !(' ' <= c <= '~') && c !in "\t\r\n" ==> IsHexEscape(EscapeChar(c), c)
  {
    if !Printable(c) && c !in "\t\r\n" {
      var s, hex := EscapeChar(c), Digits(c as int, 16);
      DigitsReadBack(c as int, 16);
      assert s[3..|s| - 1] == hex && s[..3] == "\\u{";
    }
  }

  lemma CharReadBack(c: char, tail: string)
    ensures ReadChar(EscapeChar(c) + tail) == Some((c, tail))
  {
    var s := EscapeChar(c) + tail;
    if |EscapeChar(c)| == 1 {
      assert s[1..] == tail;
    } else if |EscapeChar(c)| == 2 {
      assert s[2..] == tail;
    } else {
      ScalarReadBack(c, tail);
      assert s[3..] == Digits(c as int, 16) + "}" + tail;
    }
  }

  lemma {:induction false} TextReadBack(s: string, tail: string)
    ensures ReadQuoted(Escaped(s) + "\"" + tail) == Some((s, tail))
  {
    var text := Escaped(s) + "\"" + tail;
    if |s| == 0 {
      assert text[1..] == tail;
    } else {
      var rest := Escaped(s[1..]) + "\"" + tail;
      assert text == EscapeChar(s[0]) + rest;
      CharReadBack(s[0], rest);
      TextReadBack(s[1..], tail);
      assert [s[0]] + s[1..] == s;
    }
  }

  lemma QuotedReadBack(item: string, tail: string)
    ensures Quoted(item) + tail == "\"" + (Escaped(item) + "\"" + tail)
    ensures ReadQuoted((Quoted(item) + tail)[1..]) == Some((item, tail))
  {
    hide Escaped, ReadQuoted;
    TextReadBack(item, tail);
    assert (Quoted(item) + tail)[1..] == Escaped(item) + "\"" + tail;
  }

  lemma LastItem(item: string)
    ensures ReadItems(Quoted(item) + "]") == Some([item])
  {
    hide Escaped;
    QuotedReadBack(item, "]");
  }

  lemma ItemThenMore(item: string, more: string, entries: seq<string>)
    requires ReadItems(more) == Some(entries)
    ensures ReadItems(Quoted(item) + (", " + more)) == Some([item] + entries)
  {
    hide Escaped;
    var tail := ", " + more;
    QuotedReadBack(item, tail);
    assert tail[2..] == more && tail[..2] == ", ";
    assert |tail| > |"]"|;
  }

  lemma {:induction false} ItemsReadBack(entries: seq<string>)
    requires |entries| > 0
    ensures ReadItems(ItemsText(entries) + "]") == Some(entries)
  {
    hide Escaped, Quoted, ReadItems;
    if |entries| == 1 {
      LastItem(entries[0]);
      assert entries == [entries[0]];
    } else {
      var more := ItemsText(entries[1..]) + "]";
      ItemsReadBack(entries[1..]);
      ItemThenMore(entries[0], more, entries[1..]);
      assert ItemsText(entries) + "]" == Quoted(entries[0]) + (", " + more);
      assert [entries[0]] + entries[1..] == entries;
    }
  }

  /** Whatever characters the entries hold, the list they came from can be read out of the printed text. */
  lemma ListReadBack(entries: seq<string>)
    ensures ReadList(ListText(entries)) == Some(entries)
  {
    var s := ListText(entries);
    if |entries| == 0 {
      assert s == "[]";
    } else {
      ItemsReadBack(entries);
      assert s[1..] == ItemsText(entries) + "]";
      assert s[1] == '"';
    }
  }

  lemma {:induction false} ItemsPrintable(entries: seq<string>)
    ensures forall i :: 0 <= i < |ItemsText(entries)| ==> Printable(ItemsText(entries)[i])
  {
    if |entries| > 1 {
      ItemsPrintable(entries[1..]);
    }
  }

  lemma {:induction false} ItemsSnoc(entries: seq<string>, last: string)
    requires |entries| > 0
    ensures ItemsText(entries + [last]) == ItemsText(entries) + ", " + Quoted(last)
  {
    hide Quoted;
    var all := entries + [last];
    if |entries| == 1 {
      assert all[1..] == [last];
    } else {
      ItemsSnoc(entries[1..], last);
      assert all[1..] == entries[1..] + [last];
    }
  }

  lemma Associates(a: string, b: string, c: string)
    ensures a + b + c == a + (b + c)
    ensures "" + ("" + c) == c
  {
  }

  lemma Pushes(open: string, separator: string, quote: string, body: string)
    ensures open + separator + quote + body + quote == open + (separator + (quote + body + quote))
  {
  }

  lemma OneMoreItem(entries: seq<string>, last: string)
    ensures ItemsText(entries + [last]) == ItemsText(entries) + ((if |entries| > 0 then ", " else "") + Quoted(last))
  {
    hide Quoted;
    if |entries| > 0 {
      ItemsSnoc(entries, last);
      Associates(ItemsText(entries), ", ", Quoted(last));
    } else {
      Associates("", "", Quoted(last));
      assert entries + [last] == [last];
    }
  }

  /** The push-by-push form of the argv arm of `render_arg_text`. */
  method RenderArgv(entries: seq<string>) returns (s: string)
    ensures s == ListText(entries)
  {
    hide Escaped;
    s := "[";
    var i := 0;
    while i < |entries|
      invariant 0 <= i <= |entries|
      invariant s == "[" + ItemsText(entries[..i])
    {
      OneMoreItem(entries[..i], entries[i]);
      assert entries[..i + 1] == entries[..i] + [entries[i]];
      ghost var separator := if i > 0 then ", " else "";
      Associates("[", ItemsText(entries[..i]), separator + Quoted(entries[i]));
      Pushes(s, if i > 0 then ", " else "", "\"", Escaped(entries[i]));
      if i > 0 {
        s := s + ", ";
      }
      s := s + "\"";
      s := s + Escaped(entries[i]);
      s := s + "\"";
      i := i + 1;
    }
    assert entries[..i] == entries;
    s := s + "]";
  }
}
