/** The pipeline behind the tracer: filter, decode, print, and the latched error. The sink of main.rs. */
module Sink {
  import opened Prelude
  import opened TracerModel
  import opened Text
  import opened Render
  import opened Terminal
  import opened Pretty
  import opened PrettyRuns
  import opened Filters

  /** What a registered decoder answers about one event; None is a decode error. */
  datatype Decoding = Decoding(call: Option<Call>, category: Category)

  /** One event as the sink meets it, with the decoder registered for its number, if any. */
  datatype Arrival = Arrival(ev: SyscallEvent, decoder: Option<Decoding>)

  datatype Format = PrettyLines | JsonLines

  /** Everything fixed for a run. `json` is the object text without its newline. */
  datatype Setup = Setup(
    format: Format,
    cfg: Pretty.Config,
    theme: Theme,
    lib: Library,
    json: (SyscallEvent, Call) -> string,
    globs: Globs,
    filter: Filter)

  function UintArgs(args: seq<u64>, n: nat): seq<(string, Arg)>
    requires n <= 6
    decreases 6 - n
  {
    if n == 6 then []
    else [("arg" + Digits(n, 10), Uint(if n < |args| then args[n] else 0))] + UintArgs(args, n + 1)
  }

  function FallbackDecoded(ev: SyscallEvent): Call { Call(UintArgs(ev.args, 0), ev.ret) }

  /** The decoder's call when there is one and it succeeds, the raw registers otherwise. */
  function Decoded(arrival: Arrival): Shown {
    if arrival.decoder.Some? && arrival.decoder.value.call.Some? then
      Shown(arrival.ev, arrival.decoder.value.call.value, Some(arrival.decoder.value.category))
    else
      Shown(arrival.ev, FallbackDecoded(arrival.ev), None)
  }

  /** A successful decoder's call is shown, with that decoder's category. */
  lemma DecoderIsUsed(ev: SyscallEvent, call: Call, category: Category)
    ensures Decoded(Arrival(ev, Some(Decoding(Some(call), category)))) == Shown(ev, call, Some(category))
  {
  }

  lemma {:induction false} UintArgsAt(args: seq<u64>, n: nat, k: nat)
    requires n <= k < 6
    ensures |UintArgs(args, n)| == 6 - n
    ensures UintArgs(args, n)[k - n] == ("arg" + Digits(k, 10), Uint(if k < |args| then args[k] else 0))
    decreases 6 - n
  {
    if n < k {
      UintArgsAt(args, n + 1, k);
    } else if n < 5 {
      UintArgsAt(args, n + 1, n + 1);
    }
  }

  /** Without a decoder, or when it fails, the six registers are shown under their own names, and no category. */
  lemma FallbackShowsRegisters(arrival: Arrival)
    requires arrival.decoder.None? || arrival.decoder.value.call.None?
    requires |arrival.ev.args| == 6
    ensures var x, args := Decoded(arrival), arrival.ev.args;
            && x.ev == arrival.ev && x.category == None && x.call.ret == arrival.ev.ret
            && x.call.args == [("arg0", Uint(args[0])), ("arg1", Uint(args[1])), ("arg2", Uint(args[2])),
                               ("arg3", Uint(args[3])), ("arg4", Uint(args[4])), ("arg5", Uint(args[5]))]
  {
    hide UintArgs;
    UintArgsAt(arrival.ev.args, 0, 0);
    forall k | 0 <= k < 6
      ensures UintArgs(arrival.ev.args, 0)[k] == ("arg" + ["0", "1", "2", "3", "4", "5"][k], Uint(arrival.ev.args[k]))
    {
      UintArgsAt(arrival.ev.args, 0, k);
      assert Digits(k, 10) == ["0", "1", "2", "3", "4", "5"][k];
    }
    var args := UintArgs(arrival.ev.args, 0);
    assert args[0].0 == "arg0" && args[1].0 == "arg1" && args[2].0 == "arg2";
    assert args[3].0 == "arg3" && args[4].0 == "arg4" && args[5].0 == "arg5";
  }

  /** The whole filter as one condition on one event. */
  predicate Passes(run: Setup, arrival: Arrival) {
    && MatchesEvent(run.globs, run.filter, run.lib.name(arrival.ev.nr), arrival.ev.ret)
    && MatchesDecoded(run.globs, run.filter, Decoded(arrival).call)
  }

  function Passing(run: Setup, stream: seq<Arrival>): seq<Shown> {
    if |stream| == 0 then []
    else
      var before, last := Passing(run, stream[..|stream| - 1]), stream[|stream| - 1];
      if Passes(run, last) then before + [Decoded(last)] else before
  }

  /**
   * What the options ask for: with `--fail` a negative return value, with a list of names one of its patterns to match
   * the name, with a list of paths one of its patterns to match some path among the arguments.
   */
  ghost predicate Wanted(run: Setup, x: Shown) {
    && (run.filter.onlyFail ==> x.ev.ret < 0)
    && (run.filter.syscalls.Some? ==>
          exists p :: p in run.filter.syscalls.value && run.globs.hit(p, run.lib.name(x.ev.nr)))
    && (run.filter.paths.Some? ==>
          exists i, p :: 0 <= i < |x.call.args| && x.call.args[i].1.Path? && p in run.filter.paths.value
                         && run.globs.hit(p, x.call.args[i].1.text))
  }

  /** The two stages of the filter let through what is wanted, and nothing else. */
  lemma PassesIffWanted(run: Setup, arrival: Arrival)
    ensures Passes(run, arrival) <==> Wanted(run, Decoded(arrival))
  {
    var x := Decoded(arrival);
    if run.filter.paths.Some? {
      if i, p :| 0 <= i < |x.call.args| && x.call.args[i].1.Path? && p in run.filter.paths.value
                 && run.globs.hit(p, x.call.args[i].1.text) {
        assert IsMatch(run.globs, run.filter.paths.value, x.call.args[i].1.text);
      }
    }
  }

  /** Everything wanted gets through, and all of it when no option is set. */
  lemma {:induction false} PassingIsWanted(run: Setup, stream: seq<Arrival>)
    ensures forall x :: x in Passing(run, stream) ==> Wanted(run, x) && exists a :: a in stream && Decoded(a) == x
    ensures forall a :: a in stream && Wanted(run, Decoded(a)) ==> Decoded(a) in Passing(run, stream)
    ensures |Passing(run, stream)| <= |stream|
    ensures run.filter == Filter(None, false, None) ==> |Passing(run, stream)| == |stream|
  {
    hide Passes, Decoded, Wanted;
    if |stream| > 0 {
      var n := |stream| - 1;
      PassingIsWanted(run, stream[..n]);
      PassesIffWanted(run, stream[n]);
      assert stream == stream[..n] + [stream[n]];
      if run.filter == Filter(None, false, None) {
        assert Wanted(run, Decoded(stream[n])) by { NoOptions(run, Decoded(stream[n])); }
      }
    }
  }

  lemma NoOptions(run: Setup, x: Shown)
    requires run.filter == Filter(None, false, None)
    ensures Wanted(run, x)
  {
  }

  // What should be on the page.

  const MAX_U64 := 0xFFFF_FFFF_FFFF_FFFF

  /** The rendering of the last of `items`, after the others. */
  function RecordText(run: Setup, items: seq<Shown>): string
    requires |items| > 0
  {
    var n := |items| - 1;
    match run.format
    case PrettyLines => LineAt(InkOf(run.cfg, run.theme), run.cfg, run.lib, items, n)
    case JsonLines => run.json(items[n].ev, items[n].call) + "\n"
  }

  function FullText(run: Setup, items: seq<Shown>): string {
    if |items| == 0 then "" else FullText(run, items[..|items| - 1]) + RecordText(run, items)
  }

  /** A record the JSON writer refuses before it writes anything. */
  predicate Refused(run: Setup, x: Shown) { run.format.JsonLines? && x.ev.duration > MAX_U64 }

  /** The error a record that does not fit ends in: the JSON writer wraps what happens inside the object. */
  function ErrorOf(run: Setup, x: Shown, room: Room, fault: IoError): IoError {
    if run.format.JsonLines? && !Fits(room, run.json(x.ev, x.call)) then IoError.Other(fault) else fault
  }

  /** The page and the first error after the records of `items` were handed over. */
  datatype Page = Page(text: string, room: Room, error: Option<IoError>)

  function PageAfter(run: Setup, room: Room, fault: IoError, items: seq<Shown>): Page {
    if |items| == 0 then Page("", room, None)
    else
      var before := PageAfter(run, room, fault, items[..|items| - 1]);
      if before.error.Some? then before else PageWith(run, before, fault, items)
  }

  function PageWith(run: Setup, before: Page, fault: IoError, items: seq<Shown>): Page
    requires |items| > 0
  {
    var x := items[|items| - 1];
    if Refused(run, x) then before.(error := Some(InvalidData))
    else
      var text := RecordText(run, items);
      Page(before.text + Taken(before.room, text), Left(before.room, text),
           if Fits(before.room, text) then None else Some(ErrorOf(run, x, before.room, fault)))
  }

  // The program.

  /** `json::write_event`. */
  method WriteJson(w: Writer, run: Setup, x: Shown) returns (r: Result<(), IoError>)
    modifies w
    ensures x.ev.duration > 18446744073709551615 ==> r == Err(InvalidData) && w.text == old(w.text) && w.room == old(w.room)
    ensures x.ev.duration <= 18446744073709551615 ==>
              var text := run.json(x.ev, x.call) + "\n";
              && w.text == old(w.text) + Taken(old(w.room), text)
              && w.room == Left(old(w.room), text)
              && r == if Fits(old(w.room), text) then Ok(())
                      else if Fits(old(w.room), run.json(x.ev, x.call)) then Err(w.fault) else Err(IoError.Other(w.fault))
  {
    if x.ev.duration > MAX_U64 {
      return Err(InvalidData);
    }
    var body := run.json(x.ev, x.call);
    TakenInParts(old(w.text), old(w.room), body, "\n");
    r := w.Write(body);
    if r.Err? {
      return Err(IoError.Other(r.error));
    }
    r := w.Write("\n");
  }

  class SinkState {
    const out: Writer
    const run: Setup
    const prettyState: PrettyState
    var firstErr: Option<IoError>
    var closed: bool

    constructor (out: Writer, run: Setup)
      ensures this.out == out && this.run == run && fresh(prettyState)
      ensures prettyState.Value() == FRESH && firstErr == None && !closed
      ensures out.text == "" ==> HasHandled(out.room, [])
    {
      this.out, this.run := out, run;
      prettyState := new PrettyState();
      firstErr, closed := None, false;
    }

    /** The sink stands as if `stream` had been handled from an empty page with `room` to fill. */
    ghost predicate HasHandled(room: Room, stream: seq<Arrival>)
      reads this, out, prettyState
    {
      var items := Passing(run, stream);
      var page := PageAfter(run, room, out.fault, items);
      && out.text == page.text && out.room == page.room
      && Latched(page.error)
      && (run.format.PrettyLines? && page.error.None? ==> prettyState.Value() == StateAfter(run.cfg, run.lib, items))
    }

    /** `error` is the first error, and how it was recorded. */
    predicate Latched(error: Option<IoError>)
      reads this
    {
      && closed == (error == Some(BrokenPipe))
      && firstErr == (if error == Some(BrokenPipe) then None else error)
    }

    method Record(e: IoError)
      modifies this
      ensures e == BrokenPipe ==> closed && firstErr == old(firstErr)
      ensures e != BrokenPipe ==>
                closed == old(closed) && firstErr == (if old(firstErr).Some? then old(firstErr) else Some(e))
    {
      if e == BrokenPipe {
        closed := true;
      } else if firstErr.None? {
        firstErr := Some(e);
      }
    }

    method Print(x: Shown) returns (r: Result<(), IoError>)
      modifies out, prettyState
      ensures run.format.PrettyLines? ==>
                && out.Wrote(Line(InkOf(run.cfg, run.theme), run.cfg, run.lib, old(prettyState.Value()), x), r)
                && prettyState.Value() == NextState(run.cfg, run.lib, old(prettyState.Value()), x, r.Ok?)
      ensures run.format.JsonLines? && Refused(run, x) ==>
                r == Err(InvalidData) && out.text == old(out.text) && out.room == old(out.room)
      ensures run.format.JsonLines? && !Refused(run, x) ==>
                var text := run.json(x.ev, x.call) + "\n";
                && out.text == old(out.text) + Taken(old(out.room), text)
                && out.room == Left(old(out.room), text)
                && r == if Fits(old(out.room), text) then Ok(()) else Err(ErrorOf(run, x, old(out.room), out.fault))
    {
      match run.format
      case PrettyLines => r := WriteEvent(out, x, run.cfg, run.theme, run.lib, prettyState);
      case JsonLines => r := WriteJson(out, run, x);
    }

    /** `handle`, on the event that follows `stream`. */
    method Handle(arrival: Arrival, ghost room: Room, ghost stream: seq<Arrival>)
      requires HasHandled(room, stream)
      modifies this, out, prettyState
      ensures HasHandled(room, stream + [arrival])
      ensures old(closed || firstErr.Some?) ==> out.text == old(out.text) && Latched(if old(closed) then Some(BrokenPipe) else old(firstErr))
    {
      hide Line, Taken, Left, Fits, MatchesEvent, MatchesDecoded, Decoded, PageAfter, RecordText, StateAfter, NextState;
      ghost var items := Passing(run, stream);
      ghost var all := Passing(run, stream + [arrival]);
      ghost var page := PageAfter(run, room, out.fault, items);
      assert (stream + [arrival])[..|stream|] == stream;
      if closed || firstErr.Some? {
        assert page.error.Some?;
        OnceStopped(run, room, out.fault, items, Decoded(arrival));
        return;
      }
      if !MatchesEvent(run.globs, run.filter, run.lib.name(arrival.ev.nr), arrival.ev.ret) {
        return;
      }
      var x := Decoded(arrival);
      if NeedsDecode(run.filter) && !MatchesDecoded(run.globs, run.filter, x.call) {
        return;
      }
      NoPathGate(run, x.call);
      NextRecord(run, room, out.fault, items, x);
      var r := Print(x);
      if r.Err? {
        Record(r.error);
      }
    }

    /** The sink of a whole run. */
    method HandleAll(stream: seq<Arrival>, ghost room: Room)
      requires HasHandled(room, [])
      modifies this, out, prettyState
      ensures HasHandled(room, stream)
    {
      var i := 0;
      while i < |stream|
        invariant 0 <= i <= |stream|
        invariant HasHandled(room, stream[..i])
      {
        Handle(stream[i], room, stream[..i]);
        assert stream[..i + 1] == stream[..i] + [stream[i]];
        i := i + 1;
      }
      assert stream[..i] == stream;
    }

    /** `finish`, given what the last flush answers. */
    method Finish(flush: Option<IoError>, ghost error: Option<IoError>) returns (r: Result<(), IoError>)
      requires Latched(error)
      modifies this
      ensures r == Verdict(error, flush)
      ensures old(firstErr).Some? ==> r == Err(old(firstErr).value)
      ensures old(firstErr).None? ==>
                r == if flush.None? || flush == Some(BrokenPipe) then Ok(()) else Err(flush.value)
    {
      if flush.Some? {
        Record(flush.value);
      }
      match firstErr
      case Some(e) => return Err(e);
      case None => return Ok(());
    }
  }

  /** The first of the two errors that is not a broken pipe. */
  function Verdict(error: Option<IoError>, flush: Option<IoError>): Result<(), IoError> {
    if error.Some? && error.value != BrokenPipe then Err(error.value)
    else if flush.Some? && flush.value != BrokenPipe then Err(flush.value)
    else Ok(())
  }

  lemma NoPathGate(run: Setup, call: Call)
    ensures !NeedsDecode(run.filter) ==> MatchesDecoded(run.globs, run.filter, call)
  {
  }

  lemma NextRecord(run: Setup, room: Room, fault: IoError, items: seq<Shown>, x: Shown)
    ensures PageAfter(run, room, fault, items).error.None? ==>
              PageAfter(run, room, fault, items + [x])
              == PageWith(run, PageAfter(run, room, fault, items), fault, items + [x])
    ensures RecordText(run, items + [x])
         == match run.format
            case PrettyLines => Line(InkOf(run.cfg, run.theme), run.cfg, run.lib, StateAfter(run.cfg, run.lib, items), x)
            case JsonLines => run.json(x.ev, x.call) + "\n"
    ensures StateAfter(run.cfg, run.lib, items + [x])
         == NextState(run.cfg, run.lib, StateAfter(run.cfg, run.lib, items), x, true)
  {
    assert (items + [x])[..|items|] == items;
  }

  lemma OnceStopped(run: Setup, room: Room, fault: IoError, items: seq<Shown>, x: Shown)
    requires PageAfter(run, room, fault, items).error.Some?
    ensures PageAfter(run, room, fault, items + [x]) == PageAfter(run, room, fault, items)
  {
    assert (items + [x])[..|items|] == items;
  }
}
