/** The event filter: loi-filter. Glob syntax and matching belong to another library and are functions here. */
module Filters {
  import opened Prelude
  import opened Text
  import opened Render

  /** `valid` says which patterns parse, `build` whether the set of them compiles, `hit` whether a pattern matches. */
  datatype Globs = Globs(
    valid: string -> bool,
    build: seq<string> -> Result<(), Option<string>>,
    hit: (string, string) -> bool)

  /** The patterns of a compiled set. */
  type GlobSet = seq<string>

  datatype FilterError = InvalidGlob(pattern: string)

  datatype Filter = Filter(syscalls: Option<GlobSet>, onlyFail: bool, paths: Option<GlobSet>)

  predicate IsMatch(globs: Globs, patterns: GlobSet, text: string) {
    exists p :: p in patterns && globs.hit(p, text)
  }

  /** A gate that is off lets everything through. */
  predicate Gate(globs: Globs, gate: Option<GlobSet>, text: string) {
    gate.None? || IsMatch(globs, gate.value, text)
  }

  predicate MatchesEvent(globs: Globs, filter: Filter, name: string, ret: int) {
    !(filter.onlyFail && ret >= 0) && Gate(globs, filter.syscalls, name)
  }

  predicate MatchesDecoded(globs: Globs, filter: Filter, call: Call) {
    filter.paths.None?
    || exists i :: 0 <= i < |call.args| && call.args[i].1.Path? && IsMatch(globs, filter.paths.value, call.args[i].1.text)
  }

  predicate NeedsDecode(filter: Filter) { filter.paths.Some? }

  // Compiling a comma-separated list.

  predicate IsSpace(c: char) {
    var n := c as int;
    9 <= n <= 13 || n == 0x20 || n == 0x85 || n == 0xA0 || n == 0x1680 || 0x2000 <= n <= 0x200A
    || n == 0x2028 || n == 0x2029 || n == 0x202F || n == 0x205F || n == 0x3000
  }

  function TrimStart(s: string): string {
    if |s| > 0 && IsSpace(s[0]) then TrimStart(s[1..]) else s
  }

  function TrimEnd(s: string): string {
    if |s| > 0 && IsSpace(s[|s| - 1]) then TrimEnd(s[..|s| - 1]) else s
  }

  function Trim(s: string): string { TrimEnd(TrimStart(s)) }

  /** The patterns of a list of segments: trimmed, the empty ones left out. */
  function Patterns(segments: seq<string>): seq<string> {
    if |segments| == 0 then []
    else
      var p := Trim(segments[0]);
      (if p == "" then [] else [p]) + Patterns(segments[1..])
  }

  function FirstInvalid(globs: Globs, patterns: seq<string>): Option<string> {
    if |patterns| == 0 then None
    else if !globs.valid(patterns[0]) then Some(patterns[0])
    else FirstInvalid(globs, patterns[1..])
  }

  function Compiled(globs: Globs, raw: Option<string>): Result<Option<GlobSet>, FilterError> {
    if raw.None? then Ok(None)
    else
      var patterns := Patterns(Split(raw.value, ','));
      var bad := FirstInvalid(globs, patterns);
      if bad.Some? then Err(InvalidGlob(bad.value))
      else if patterns == [] then Ok(None)
      else
        match globs.build(patterns)
        case Ok(_) => Ok(Some(patterns))
        case Err(at) => Err(InvalidGlob(if at.Some? then at.value else raw.value))
  }

  lemma {:induction false} PatternsOfSum(a: seq<string>, b: seq<string>)
    ensures Patterns(a + b) == Patterns(a) + Patterns(b)
  {
    hide Trim;
    if |a| == 0 {
      assert a + b == b;
    } else {
      var head := if Trim(a[0]) == "" then [] else [Trim(a[0])];
      PatternsOfSum(a[1..], b);
      assert (a + b)[1..] == a[1..] + b;
      assert head + (Patterns(a[1..]) + Patterns(b)) == head + Patterns(a[1..]) + Patterns(b);
    }
  }

  lemma {:induction false} FirstInvalidOfSum(globs: Globs, a: seq<string>, b: seq<string>)
    ensures FirstInvalid(globs, a + b)
         == if FirstInvalid(globs, a).Some? then FirstInvalid(globs, a) else FirstInvalid(globs, b)
  {
    if |a| == 0 {
      assert a + b == b;
    } else {
      FirstInvalidOfSum(globs, a[1..], b);
      assert (a + b)[1..] == a[1..] + b;
    }
  }

  lemma OneSegment(globs: Globs, done: seq<string>, segment: string)
    ensures Patterns(done + [segment]) == Patterns(done) + if Trim(segment) == "" then [] else [Trim(segment)]
    ensures FirstInvalid(globs, Patterns(done)).None? ==>
              FirstInvalid(globs, Patterns(done + [segment]))
              == if Trim(segment) != "" && !globs.valid(Trim(segment)) then Some(Trim(segment)) else None
  {
    hide Trim;
    var p := Trim(segment);
    var last := if p == "" then [] else [p];
    PatternsOfSum(done, [segment]);
    assert [segment][1..] == [] && [p][1..] == [];
    assert Patterns([segment]) == last;
    FirstInvalidOfSum(globs, Patterns(done), last);
  }

  lemma {:induction false} InvalidStays(globs: Globs, a: seq<string>, b: seq<string>)
    requires FirstInvalid(globs, Patterns(a)).Some?
    ensures FirstInvalid(globs, Patterns(a + b)) == FirstInvalid(globs, Patterns(a))
  {
    PatternsOfSum(a, b);
    FirstInvalidOfSum(globs, Patterns(a), Patterns(b));
  }

  method CompileGlobs(globs: Globs, raw: Option<string>) returns (r: Result<Option<GlobSet>, FilterError>)
    ensures r == Compiled(globs, raw)
  {
    hide Trim, FirstInvalid, Patterns;
    if raw.None? {
      return Ok(None);
    }
    var segments := Split(raw.value, ',');
    var builder: seq<string> := [];
    var any := false;
    var i := 0;
    NoPatterns(globs);
    while i < |segments|
      invariant 0 <= i <= |segments|
      invariant builder == Patterns(segments[..i])
      invariant FirstInvalid(globs, builder).None?
      invariant any <==> builder != []
    {
      var pattern := Trim(segments[i]);
      OneSegment(globs, segments[..i], segments[i]);
      i := i + 1;
      assert segments[..i] == segments[..i - 1] + [segments[i - 1]];
      if pattern == "" {
        continue;
      }
      if !globs.valid(pattern) {
        InvalidStays(globs, segments[..i], segments[i..]);
        assert segments[..i] + segments[i..] == segments;
        return Err(InvalidGlob(pattern));
      }
      builder := builder + [pattern];
      any := true;
    }
    assert segments[..i] == segments;
    if !any {
      return Ok(None);
    }
    match globs.build(builder)
    case Ok(_) => return Ok(Some(builder));
    case Err(at) => return Err(InvalidGlob(if at.Some? then at.value else raw.value));
  }

  lemma NoPatterns(globs: Globs)
    ensures Patterns([]) == [] && FirstInvalid(globs, []) == None
  {
  }

  // What a list means.

  /** The 25 characters of Unicode's White_Space. */
  predicate Blank(c: char) {
    c in "\t\n\U{0B}\U{0C}\r \U{85}\U{A0}\U{1680}\U{2028}\U{2029}\U{202F}\U{205F}\U{3000}"
    || c in "\U{2000}\U{2001}\U{2002}\U{2003}\U{2004}\U{2005}\U{2006}\U{2007}\U{2008}\U{2009}\U{200A}"
  }

  predicate AllBlank(s: string) { forall i :: 0 <= i < |s| ==> Blank(s[i]) }

  lemma SpacesAreBlanks(c: char)
    ensures IsSpace(c) <==> Blank(c)
  {
    var n := c as int;
    assert c in "\t\n\U{0B}\U{0C}\r " <==> 9 <= n <= 13 || n == 0x20;
    assert c in "\U{2000}\U{2001}\U{2002}\U{2003}\U{2004}\U{2005}\U{2006}\U{2007}\U{2008}\U{2009}\U{200A}"
      <==> 0x2000 <= n <= 0x200A;
  }

  /** `t` is `s` without the blanks at its ends. */
  ghost predicate IsTrimmed(s: string, t: string) {
    && (t == "" || (!Blank(t[0]) && !Blank(t[|t| - 1])))
    && exists before, after :: AllBlank(before) && AllBlank(after) && s == before + t + after
  }

  lemma {:induction false} TrimStartIs(s: string) returns (before: string)
    ensures AllBlank(before) && s == before + TrimStart(s)
    ensures TrimStart(s) == "" || !Blank(TrimStart(s)[0])
  {
    hide IsSpace, Blank;
    before := "";
    if |s| > 0 {
      SpacesAreBlanks(s[0]);
      if IsSpace(s[0]) {
        var more := TrimStartIs(s[1..]);
        before := [s[0]] + more;
        assert s == [s[0]] + s[1..];
      }
    }
  }

  lemma {:induction false} TrimEndIs(s: string) returns (after: string)
    ensures AllBlank(after) && s == TrimEnd(s) + after
    ensures TrimEnd(s) == "" || !Blank(TrimEnd(s)[|TrimEnd(s)| - 1])
  {
    hide IsSpace, Blank;
    after := "";
    if |s| > 0 {
      var n := |s| - 1;
      SpacesAreBlanks(s[n]);
      if IsSpace(s[n]) {
        var more := TrimEndIs(s[..n]);
        after := more + [s[n]];
        assert s == s[..n] + [s[n]];
      }
    }
  }

  lemma TrimIs(s: string)
    ensures IsTrimmed(s, Trim(s))
    ensures Trim(s) == "" <==> AllBlank(s)
  {
    hide IsSpace, Blank, TrimStart, TrimEnd;
    var before := TrimStartIs(s);
    var rest := TrimStart(s);
    var after := TrimEndIs(rest);
    var t := TrimEnd(rest);
    assert s == before + t + after;
    if t != "" {
      assert t[0] == rest[0] && s[|before|] == t[0];
    }
  }

  lemma {:induction false} PatternsAre(segments: seq<string>, p: string)
    ensures p in Patterns(segments) <==> p != "" && exists s :: s in segments && Trim(s) == p
  {
    hide Trim;
    if |segments| > 0 {
      PatternsAre(segments[1..], p);
      assert segments == [segments[0]] + segments[1..];
    }
  }

  lemma PatternsNone(segments: seq<string>)
    ensures Patterns(segments) == [] <==> forall s :: s in segments ==> AllBlank(s)
  {
    hide Trim, AllBlank, Patterns;
    forall s | s in segments ensures Trim(s) == "" <==> AllBlank(s) { TrimIs(s); }
    if Patterns(segments) != [] {
      PatternsAre(segments, Patterns(segments)[0]);
    } else {
      forall s | s in segments ensures Trim(s) == "" { PatternsAre(segments, Trim(s)); }
    }
  }

  /**
   * A gate is off exactly when there is no list or nothing but blanks between its commas. When it is on, its patterns
   * are what stands between the commas, trimmed, the empty ones left out; they all parse, and together they build.
   */
  lemma CompiledExactly(globs: Globs, raw: Option<string>)
    ensures Compiled(globs, raw) == Ok(None)
       <==> raw.None? || forall s :: s in Split(raw.value, ',') ==> AllBlank(s)
    ensures Compiled(globs, raw).Ok? && Compiled(globs, raw).value.Some? ==>
              && raw.Some?
              && var ps := Compiled(globs, raw).value.value;
                 && globs.build(ps).Ok?
                 && forall p :: p in ps ==> globs.valid(p)
    ensures Compiled(globs, raw).Ok? && Compiled(globs, raw).value.Some? ==>
              forall p :: p in Compiled(globs, raw).value.value
                     <==> p != "" && exists s :: s in Split(raw.value, ',') && Trim(s) == p
  {
    hide Trim, AllBlank, Patterns, FirstInvalid, Split;
    if raw.Some? {
      var segments := Split(raw.value, ',');
      PatternsNone(segments);
      forall p ensures p in Patterns(segments) <==> p != "" && exists s :: s in segments && Trim(s) == p {
        PatternsAre(segments, p);
      }
      NoPatterns(globs);
      var k := FirstInvalidFound(globs, Patterns(segments));
    }
  }

  /** Joining two lists with a comma joins what they let through; a list without patterns adds nothing to the other. */
  lemma ListsJoin(globs: Globs, a: string, b: string, text: string)
    requires Compiled(globs, Some(a)).Ok? && Compiled(globs, Some(b)).Ok? && Compiled(globs, Some(a + "," + b)).Ok?
    ensures var gateA, gateB := Compiled(globs, Some(a)).value, Compiled(globs, Some(b)).value;
            var gate := Compiled(globs, Some(a + "," + b)).value;
            && (gateA.None? ==> gate == gateB)
            && (gateB.None? ==> gate == gateA)
            && (gateA.Some? && gateB.Some? ==>
                  (Gate(globs, gate, text) <==> Gate(globs, gateA, text) || Gate(globs, gateB, text)))
  {
    hide Trim, Patterns;
    SplitAt(a, b, ',');
    PatternsOfSum(Split(a, ','), Split(b, ','));
    var pa, pb := Patterns(Split(a, ',')), Patterns(Split(b, ','));
    assert forall p :: p in pa + pb <==> p in pa || p in pb;
    assert pa + [] == pa && [] + pb == pb;
  }

  lemma {:induction false} FirstInvalidFound(globs: Globs, patterns: seq<string>) returns (k: nat)
    ensures k <= |patterns| && forall j :: 0 <= j < k ==> globs.valid(patterns[j])
    ensures k < |patterns| ==> !globs.valid(patterns[k])
    ensures FirstInvalid(globs, patterns) == if k < |patterns| then Some(patterns[k]) else None
  {
    if |patterns| == 0 || !globs.valid(patterns[0]) {
      k := 0;
    } else {
      var rest := FirstInvalidFound(globs, patterns[1..]);
      k := rest + 1;
      assert forall j :: 1 <= j < k ==> patterns[j] == patterns[1..][j - 1];
    }
  }

  /** The k-th pattern is the first that does not parse. */
  predicate IsLeftmost(globs: Globs, patterns: seq<string>, k: int) {
    0 <= k < |patterns| && !globs.valid(patterns[k]) && forall j :: 0 <= j < k ==> globs.valid(patterns[j])
  }

  /**
   * The error of a list names the leftmost pattern that does not parse, if there is one. Otherwise there is an error
   * exactly when the patterns that there are do not build; it names the pattern that the builder blames, or the list.
   */
  lemma LeftmostInvalid(globs: Globs, raw: string)
    ensures var patterns := Patterns(Split(raw, ','));
            && (forall k :: IsLeftmost(globs, patterns, k) ==>
                  Compiled(globs, Some(raw)) == Err(InvalidGlob(patterns[k])))
            && ((forall p :: p in patterns ==> globs.valid(p)) ==>
                  && (Compiled(globs, Some(raw)).Err? <==> patterns != [] && globs.build(patterns).Err?)
                  && (Compiled(globs, Some(raw)).Err? ==>
                        var named := globs.build(patterns).error;
                        && (named.Some? ==> Compiled(globs, Some(raw)) == Err(InvalidGlob(named.value)))
                        && (named.None? ==> Compiled(globs, Some(raw)) == Err(InvalidGlob(raw)))))
  {
    hide Patterns, Split, FirstInvalid;
    var patterns := Patterns(Split(raw, ','));
    var k := FirstInvalidFound(globs, patterns);
    assert k < |patterns| ==> IsLeftmost(globs, patterns, k) && patterns[k] in patterns;
    LeftmostIsOne(globs, patterns, k);
  }

  lemma LeftmostIsOne(globs: Globs, patterns: seq<string>, k: nat)
    requires k <= |patterns| && forall j :: 0 <= j < k ==> globs.valid(patterns[j])
    requires k < |patterns| ==> !globs.valid(patterns[k])
    ensures forall m :: IsLeftmost(globs, patterns, m) ==> m == k
  {
  }

  /** So of two lists joined by a comma, the left one's error comes first. */
  lemma LeftErrorFirst(globs: Globs, a: string, b: string)
    ensures FirstInvalid(globs, Patterns(Split(a + "," + b, ',')))
         == if FirstInvalid(globs, Patterns(Split(a, ','))).Some? then FirstInvalid(globs, Patterns(Split(a, ',')))
            else FirstInvalid(globs, Patterns(Split(b, ',')))
  {
    hide Trim, Patterns, FirstInvalid;
    SplitAt(a, b, ',');
    PatternsOfSum(Split(a, ','), Split(b, ','));
    FirstInvalidOfSum(globs, Patterns(Split(a, ',')), Patterns(Split(b, ',')));
  }
}
