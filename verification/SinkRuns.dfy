/** What the sink promises over a whole run: a prefix of the full rendering, and the verdict at the end. */
module SinkRuns {
  import opened Prelude
  import opened Terminal
  import opened Pretty
  import opened PrettyRuns
  import opened Sink

  /** Records after the first error change nothing. */
  lemma {:induction false} NothingAfterError(run: Setup, room: Room, fault: IoError, items: seq<Shown>, more: seq<Shown>)
    requires PageAfter(run, room, fault, items).error.Some?
    ensures PageAfter(run, room, fault, items + more) == PageAfter(run, room, fault, items)
  {
    hide PageWith;
    if |more| == 0 {
      assert items + more == items;
    } else {
      var n := |more| - 1;
      NothingAfterError(run, room, fault, items, more[..n]);
      assert (items + more)[..|items| + n] == items + more[..n];
    }
  }

  /** How many records come before the first one the writer refuses outright. */
  function BeforeRefusal(run: Setup, items: seq<Shown>): (n: nat)
    ensures n <= |items|
    ensures n < |items| ==> Refused(run, items[n])
    ensures forall j :: 0 <= j < n ==> !Refused(run, items[j])
  {
    if |items| == 0 then 0
    else
      var n := BeforeRefusal(run, items[..|items| - 1]);
      if n < |items| - 1 || Refused(run, items[|items| - 1]) then n else n + 1
  }

  lemma {:induction false} FullTextGrows(run: Setup, items: seq<Shown>, n: nat)
    requires n <= |items|
    ensures FullText(run, items[..n]) <= FullText(run, items)
  {
    if n == |items| {
      assert items[..n] == items;
    } else {
      hide RecordText;
      FullTextGrows(run, items[..|items| - 1], n);
      assert items[..|items| - 1][..n] == items[..n];
    }
  }

  lemma NothingTaken(room: Room)
    ensures Taken(room, "") == "" && Left(room, "") == room && Fits(room, "")
  {
  }

  /**
   * What reaches the reader is the rendering of the events that pass, cut where the writer's room ends (or before the
   * first record that is refused); and there is no error exactly when nothing was cut.
   */
  lemma {:induction false} PageIsPrefix(run: Setup, room: Room, fault: IoError, items: seq<Shown>)
    ensures var page, whole := PageAfter(run, room, fault, items), FullText(run, items[..BeforeRefusal(run, items)]);
            && page.text == Taken(room, whole)
            && page.room == Left(room, whole)
            && (page.error.None? <==> BeforeRefusal(run, items) == |items| && Fits(room, whole))
  {
    hide Refused, RecordText, ErrorOf, Taken, Left, Fits;
    if |items| == 0 {
      NothingTaken(room);
    } else {
      var n := |items| - 1;
      var m := BeforeRefusal(run, items[..n]);
      PageIsPrefix(run, room, fault, items[..n]);
      assert items[..n][..m] == items[..m] && m <= n;
      if m == n && !Refused(run, items[n]) {
        assert items[..n + 1] == items && items[..n][..n] == items[..n];
        PageStep(run, PageAfter(run, room, fault, items[..n]), room, fault, items);
      }
    }
  }

  lemma PageStep(run: Setup, before: Page, room: Room, fault: IoError, items: seq<Shown>)
    requires |items| > 0 && !Refused(run, items[|items| - 1])
    ensures var head, text, page := FullText(run, items[..|items| - 1]), RecordText(run, items), PageWith(run, before, fault, items);
            Fits(room, head) && before.text == Taken(room, head) && before.room == Left(room, head) ==>
              && page.text == Taken(room, head + text)
              && page.room == Left(room, head + text)
              && (page.error.None? <==> Fits(room, head + text))
    ensures var head, text := FullText(run, items[..|items| - 1]), RecordText(run, items);
            !Fits(room, head) ==>
              Taken(room, head + text) == Taken(room, head) && Left(room, head + text) == Left(room, head)
              && !Fits(room, head + text)
  {
    hide RecordText, FullText, ErrorOf;
    var head, text := FullText(run, items[..|items| - 1]), RecordText(run, items);
    TakenInParts("", room, head, text);
    assert "" + Taken(room, head + text) == Taken(room, head + text);
    assert "" + Taken(room, head) == Taken(room, head);
  }

  /** The records before the first error are on the page in full, and of the next one at most a part. */
  lemma {:induction false} WrittenInFull(run: Setup, room: Room, fault: IoError, items: seq<Shown>) returns (n: nat, torn: string)
    ensures n <= |items| && PageAfter(run, room, fault, items).text == FullText(run, items[..n]) + torn
    ensures PageAfter(run, room, fault, items).error.None? <==> n == |items|
    ensures n == |items| ==> torn == ""
    ensures n < |items| ==>
              && !(RecordText(run, items[..n + 1]) <= torn) && torn <= RecordText(run, items[..n + 1])
              && PageAfter(run, room, fault, items[..n]).error.None?
              && PageAfter(run, room, fault, items[..n + 1]).error.Some?
              && PageAfter(run, room, fault, items).error == PageAfter(run, room, fault, items[..n + 1]).error
  {
    hide RecordText, PageWith;
    if |items| == 0 {
      n, torn := 0, "";
      assert items[..0] == items;
    } else {
      var m := |items| - 1;
      n, torn := WrittenInFull(run, room, fault, items[..m]);
      assert items[..m][..n] == items[..n];
      if n == m {
        assert items[..m + 1] == items && items[..m][..n] == items[..m];
        torn := LastRecord(run, room, fault, items);
        n := if PageAfter(run, room, fault, items).error.None? then m + 1 else m;
      } else {
        assert items[..m][..n + 1] == items[..n + 1];
      }
    }
  }

  /** The last record, when all before it went well. */
  lemma LastRecord(run: Setup, room: Room, fault: IoError, items: seq<Shown>) returns (torn: string)
    requires |items| > 0
    requires var before := PageAfter(run, room, fault, items[..|items| - 1]);
             before.error.None? && before.text == FullText(run, items[..|items| - 1]) + ""
    ensures PageAfter(run, room, fault, items).error.None? ==>
              torn == "" && PageAfter(run, room, fault, items).text == FullText(run, items) + torn
    ensures PageAfter(run, room, fault, items).error.Some? ==>
              && PageAfter(run, room, fault, items).text == FullText(run, items[..|items| - 1]) + torn
              && torn <= RecordText(run, items) && !(RecordText(run, items) <= torn)
  {
    hide RecordText, ErrorOf, Refused, Taken, Fits;
    var before, text := PageAfter(run, room, fault, items[..|items| - 1]), RecordText(run, items);
    NotEmpty(run, items);
    assert before.text == FullText(run, items[..|items| - 1]);
    torn := "";
    if Refused(run, items[|items| - 1]) {
    } else if Fits(before.room, text) {
      TakenWhole(before.room, text);
      assert before.text + text == before.text + text + "";
    } else {
      torn := Taken(before.room, text);
      TornIsPart(before.room, text);
    }
  }

  lemma TakenWhole(room: Room, text: string)
    requires Fits(room, text)
    ensures Taken(room, text) == text
  {
  }

  lemma TornIsPart(room: Room, text: string)
    requires !Fits(room, text)
    ensures Taken(room, text) <= text && !(text <= Taken(room, text))
  {
  }

  lemma NotEmpty(run: Setup, items: seq<Shown>)
    requires |items| > 0
    ensures |RecordText(run, items)| > 0
  {
  }

  /** In pretty form the page is the formatter's run over the events that pass, so all that holds of runs holds of it. */
  lemma {:induction false} PageIsPrettyRun(run: Setup, items: seq<Shown>)
    requires run.format.PrettyLines?
    ensures FullText(run, items) == RunText(InkOf(run.cfg, run.theme), run.cfg, run.lib, items)
  {
    hide Line;
    if |items| > 0 {
      PageIsPrettyRun(run, items[..|items| - 1]);
    }
  }

  // The verdict when the reader goes away.

  /** What the last flush answers when nothing but the reader's going away can fail. */
  predicate Quiet(flush: Option<IoError>) { flush == None || flush == Some(BrokenPipe) }

  /** In pretty form a reader that goes away is never reported. */
  lemma {:induction false} PrettyClosesQuietly(run: Setup, room: Room, items: seq<Shown>, flush: Option<IoError>)
    requires run.format.PrettyLines? && Quiet(flush)
    ensures Verdict(PageAfter(run, room, BrokenPipe, items).error, flush) == Ok(())
  {
    hide RecordText;
    if |items| > 0 {
      PrettyClosesQuietly(run, room, items[..|items| - 1], flush);
    }
  }

  /** Room for everything up to and including the object of record n, but not for its newline. */
  predicate EndsBeforeNewline(run: Setup, room: Room, items: seq<Shown>, n: nat)
    requires n < |items|
  {
    room == Some(|FullText(run, items[..n + 1])| - 1)
  }

  lemma OneMoreRecord(run: Setup, items: seq<Shown>, n: nat)
    requires n < |items|
    ensures |FullText(run, items[..n + 1])| == |FullText(run, items[..n])| + |RecordText(run, items[..n + 1])|
    ensures |FullText(run, items[..n])| < |FullText(run, items[..n + 1])|
  {
    assert items[..n + 1][..n] == items[..n];
    NotEmpty(run, items[..n + 1]);
  }

  /** A room of `left` characters ends inside one record at most. */
  predicate EndsInside(run: Setup, items: seq<Shown>, left: nat, n: nat)
    requires n < |items|
  {
    |FullText(run, items[..n])| <= left < |FullText(run, items[..n + 1])|
  }

  lemma OneCutOnly(run: Setup, items: seq<Shown>, left: nat, n: nat, m: nat)
    requires n < |items| && m < |items|
    ensures EndsInside(run, items, left, n) && EndsInside(run, items, left, m) ==> n == m
  {
    hide FullText;
    if n < m {
      assert items[..m][..n + 1] == items[..n + 1];
      FullTextGrows(run, items[..m], n + 1);
    } else if m < n {
      assert items[..n][..m + 1] == items[..m + 1];
      FullTextGrows(run, items[..n], m + 1);
    }
  }

  lemma {:induction false} NoneRefused(run: Setup, items: seq<Shown>, n: nat)
    requires n <= |items| && BeforeRefusal(run, items) == |items|
    ensures BeforeRefusal(run, items[..n]) == n
  {
    hide Refused;
    if n == |items| {
      assert items[..n] == items;
    } else {
      NoneRefused(run, items[..|items| - 1], n);
      assert items[..|items| - 1][..n] == items[..n];
    }
  }

  lemma NotRefused(run: Setup, items: seq<Shown>, n: nat)
    requires n < |items| && BeforeRefusal(run, items) == |items|
    ensures !Refused(run, items[n])
  {
  }

  /** The error of one record on a broken pipe, by where the room ends. */
  lemma JsonError(run: Setup, room: Room, head: string, items: seq<Shown>)
    requires run.format.JsonLines? && |items| > 0 && !Refused(run, items[|items| - 1]) && Fits(room, head)
    ensures PageWith(run, Page(head, Left(room, head), None), BrokenPipe, items).error
         == if Fits(room, head + RecordText(run, items)) then None
            else if room == Some(|head| + |RecordText(run, items)| - 1) then Some(BrokenPipe)
            else Some(IoError.Other(BrokenPipe))
  {
    var x := items[|items| - 1];
    assert RecordText(run, items) == run.json(x.ev, x.call) + "\n";
  }

  /** The error of the record at which the room ends. */
  lemma JsonErrorAt(run: Setup, room: Room, items: seq<Shown>, n: nat)
    requires run.format.JsonLines? && BeforeRefusal(run, items) == |items| && n < |items|
    requires PageAfter(run, room, BrokenPipe, items[..n]).error.None?
    requires PageAfter(run, room, BrokenPipe, items[..n + 1]).error.Some?
    ensures room.Some? && EndsInside(run, items, room.value, n)
    ensures PageAfter(run, room, BrokenPipe, items[..n + 1]).error
         == Some(if EndsBeforeNewline(run, room, items, n) then BrokenPipe else IoError.Other(BrokenPipe))
  {
    hide BeforeRefusal, FullText, RecordText, Refused, PageWith;
    NoneRefused(run, items, n);
    assert items[..n + 1][..n] == items[..n] && items[..n][..n] == items[..n];
    PageIsPrefix(run, room, BrokenPipe, items[..n]);
    OneMoreRecord(run, items, n);
    NotRefused(run, items, n);
    JsonError(run, room, FullText(run, items[..n]), items[..n + 1]);
    SameError(run, PageAfter(run, room, BrokenPipe, items[..n]),
      Page(FullText(run, items[..n]), Left(room, FullText(run, items[..n])), None), items[..n + 1]);
  }

  lemma SameError(run: Setup, a: Page, b: Page, items: seq<Shown>)
    requires |items| > 0 && a.room == b.room && a.error == b.error
    ensures PageWith(run, a, BrokenPipe, items).error == PageWith(run, b, BrokenPipe, items).error
  {
  }

  /**
   * The JSON writer wraps the errors of the object, so a reader that goes away is passed over in silence only when
   * everything was written or the pipe breaks exactly between an object and its newline.
   */
  lemma JsonClosesQuietly(run: Setup, room: Room, items: seq<Shown>, flush: Option<IoError>)
    requires run.format.JsonLines? && BeforeRefusal(run, items) == |items| && Quiet(flush)
    ensures Verdict(PageAfter(run, room, BrokenPipe, items).error, flush) == Ok(())
       <==> Fits(room, FullText(run, items)) || exists n :: 0 <= n < |items| && EndsBeforeNewline(run, room, items, n)
  {
    hide PageAfter, FullText, RecordText, BeforeRefusal;
    PageIsPrefix(run, room, BrokenPipe, items);
    assert items[..|items|] == items;
    var n, torn := WrittenInFull(run, room, BrokenPipe, items);
    if n < |items| {
      JsonErrorAt(run, room, items, n);
      forall m | 0 <= m < |items| && EndsBeforeNewline(run, room, items, m)
        ensures m == n
      {
        OneMoreRecord(run, items, m);
        OneCutOnly(run, items, room.value, n, m);
      }
    }
  }

  /** For one: the pipe is closed before anything is written. The error that comes out is no broken pipe any more. */
  lemma JsonReportsAClosedPipe(run: Setup, x: Shown, flush: Option<IoError>)
    requires run.format.JsonLines? && !Refused(run, x) && |run.json(x.ev, x.call)| > 0 && Quiet(flush)
    ensures Verdict(PageAfter(run, Some(0), BrokenPipe, [x]).error, flush) == Err(IoError.Other(BrokenPipe))
  {
    assert [x][..0] == [];
    assert RecordText(run, [x]) == run.json(x.ev, x.call) + "\n";
  }
}
