/** A writer that can fail part way, and terminal styling with the reader that removes it. */
module Terminal {
  import opened Prelude
  import opened Text
  import opened Render

  /** I/O errors by kind; `Other` is an error wrapped by the JSON writer. */
  datatype IoError = BrokenPipe | Fault(code: int) | InvalidData | Other(inner: IoError)

  type Room = Option<nat>

  /** What a writer with `room` left takes of `s`; None is room without end. */
  function Taken(room: Room, s: string): string {
    if room.Some? && room.value < |s| then s[..room.value] else s
  }

  function Left(room: Room, s: string): Room {
    if room.None? then None else if room.value < |s| then Some(0) else Some(room.value - |s|)
  }

  predicate Fits(room: Room, s: string) { room.None? || |s| <= room.value }

  /** A text written in two goes, the second only after a full first, is taken like one text. */
  lemma TakenInParts(before: string, room: Room, a: string, b: string)
    ensures Fits(room, a) ==>
              before + Taken(room, a + b) == before + Taken(room, a) + Taken(Left(room, a), b)
              && Left(room, a + b) == Left(Left(room, a), b)
              && (Fits(room, a + b) <==> Fits(Left(room, a), b))
    ensures !Fits(room, a) ==>
              Taken(room, a + b) == Taken(room, a) && Left(room, a + b) == Left(room, a) && !Fits(room, a + b)
  {
    if Fits(room, a) {
      assert Taken(room, a + b) == Taken(room, a) + Taken(Left(room, a), b);
    }
  }

  class Writer {
    /** Everything that has reached the far end. */
    var text: string
    /** How much more it takes before its first failure. */
    var room: Room
    const fault: IoError

    constructor (room: Room, fault: IoError)
      ensures text == "" && this.room == room && this.fault == fault
    {
      this.text, this.room, this.fault := "", room, fault;
    }

    /** `s` was written to the state this object had before, in full or up to its first failure. */
    twostate predicate Wrote(s: string, new r: Result<(), IoError>)
      reads this
    {
      && text == old(text) + Taken(old(room), s)
      && room == Left(old(room), s)
      && r == if Fits(old(room), s) then Ok(()) else Err(fault)
    }

    method Write(s: string) returns (r: Result<(), IoError>)
      modifies this`text, this`room
      ensures Wrote(s, r)
    {
      text := text + Taken(room, s);
      r := if Fits(room, s) then Ok(()) else Err(fault);
      room := Left(room, s);
    }
  }

  // Styling.

  const ESC := '\U{1B}'

  /** One control sequence without its frame: `2`, `1`, `31` and so on. */
  type Code = s: string | NoEsc(s) && 'm' !in s witness ""

  /** What is sent before and after a styled text. */
  datatype Style = Style(open: seq<Code>, shut: seq<Code>)

  function Sequence(codes: seq<Code>): string {
    if |codes| == 0 then "" else [ESC] + "[" + codes[0] + "m" + Sequence(codes[1..])
  }

  datatype Theme = Theme(dim: Style, good: Style, bad: Style, name: NameStyle -> Style)

  /** The styles `name_style` picks from. */
  datatype NameStyle = Dimmed | Unstyled | Cyan | Blue | Magenta | Yellow | Bold

  datatype Ink = Plain | Colour(theme: Theme)

  function Paint(style: Style, s: string): string { Sequence(style.open) + s + Sequence(style.shut) }

  /** A control sequence is an escape character, a bracket, the code and an `m`; it goes before and after the text. */
  lemma PaintIs(open: Code, shut: Code, s: string)
    ensures Paint(Style([open], [shut]), s) == "\U{1B}[" + open + "m" + s + "\U{1B}[" + shut + "m"
  {
    SequenceOfOne(open);
    SequenceOfOne(shut);
  }

  lemma SequenceOfOne(code: Code)
    ensures Sequence([code]) == "\U{1B}[" + code + "m"
  {
    assert [code][1..] == [];
    assert "\U{1B}[" == [ESC] + "[";
  }

  /** The text a terminal shows. */
  function Strip(s: string): string {
    if |s| == 0 then "" else if s[0] == ESC then StripCode(s[1..]) else [s[0]] + Strip(s[1..])
  }

  function StripCode(s: string): string {
    if |s| == 0 then "" else if s[0] == 'm' then Strip(s[1..]) else StripCode(s[1..])
  }

  lemma {:induction false} StripCodeRest(code: string, rest: string)
    requires 'm' !in code
    ensures StripCode(code + "m" + rest) == Strip(rest)
  {
    var s := code + "m" + rest;
    if |code| == 0 {
      assert s[1..] == rest;
    } else {
      StripCodeRest(code[1..], rest);
      assert s[1..] == code[1..] + "m" + rest;
    }
  }

  lemma {:induction false} StripSequence(codes: seq<Code>, rest: string)
    ensures Strip(Sequence(codes) + rest) == Strip(rest)
  {
    if |codes| == 0 {
      assert Sequence(codes) + rest == rest;
    } else {
      hide Strip, StripCode;
      var more := Sequence(codes[1..]) + rest;
      var code := "[" + codes[0];
      assert Sequence(codes) + rest == [ESC] + (code + "m" + more);
      StripOne('[', code + "m" + more);
      StripCodeRest(code, more);
      StripSequence(codes[1..], rest);
    }
  }

  lemma StripOne(c: char, rest: string)
    ensures c != ESC ==> Strip([c] + rest) == [c] + Strip(rest)
    ensures Strip([ESC] + rest) == StripCode(rest)
  {
    assert ([c] + rest)[1..] == rest && ([ESC] + rest)[1..] == rest;
  }

  lemma {:induction false} StripClean(s: string, rest: string)
    requires NoEsc(s)
    ensures Strip(s + rest) == s + Strip(rest)
  {
    if |s| == 0 {
      assert s + rest == rest;
    } else {
      hide Strip;
      StripClean(s[1..], rest);
      StripOne(s[0], s[1..] + rest);
      assert s + rest == [s[0]] + (s[1..] + rest);
      assert s + Strip(rest) == [s[0]] + (s[1..] + Strip(rest));
    }
  }

  /** Styling a clean text changes nothing that can be seen. */
  lemma StripPaint(style: Style, s: string, rest: string)
    requires NoEsc(s)
    ensures Strip(Paint(style, s) + rest) == s + Strip(rest)
  {
    var a, b := Sequence(style.open), Sequence(style.shut);
    assert Paint(style, s) + rest == a + (s + (b + rest));
    StripSequence(style.open, s + (b + rest));
    StripClean(s, b + rest);
    StripSequence(style.shut, rest);
  }

  /** `shown` is what the terminal shows of `sent`, whatever is sent after it. */
  ghost predicate Shows(sent: string, shown: string) {
    forall rest: string :: Strip(sent + rest) == shown + Strip(rest)
  }

  lemma CleanShows(s: string)
    requires NoEsc(s)
    ensures Shows(s, s)
  {
    forall rest ensures Strip(s + rest) == s + Strip(rest) { StripClean(s, rest); }
  }

  lemma PaintShows(style: Style, s: string)
    requires NoEsc(s)
    ensures Shows(Paint(style, s), s)
  {
    forall rest ensures Strip(Paint(style, s) + rest) == s + Strip(rest) { StripPaint(style, s, rest); }
  }

  lemma ShowsOne(sent: string, shown: string, rest: string)
    requires Shows(sent, shown)
    ensures Strip(sent + rest) == shown + Strip(rest)
  {
  }

  lemma ShowsBoth(a: string, shownA: string, b: string, shownB: string)
    requires Shows(a, shownA) && Shows(b, shownB)
    ensures Shows(a + b, shownA + shownB)
  {
    hide Strip;
    forall rest ensures Strip(a + b + rest) == shownA + shownB + Strip(rest) {
      ShowsOne(a, shownA, b + rest);
      ShowsOne(b, shownB, rest);
      assert a + b + rest == a + (b + rest);
      assert shownA + shownB + Strip(rest) == shownA + (shownB + Strip(rest));
    }
  }

  lemma ShowsWhole(sent: string, shown: string)
    requires Shows(sent, shown)
    ensures Strip(sent) == shown
  {
    assert sent + "" == sent && shown + Strip("") == shown;
  }
}
