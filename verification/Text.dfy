/** Text helpers: numbers in a base, joining, padding, and what is safe to send to a terminal. */
module Text {
  /** Text with no escape character, the only character that starts a terminal control sequence. */
  predicate NoEsc(s: string) { forall i :: 0 <= i < |s| ==> s[i] != '\U{1B}' }

  predicate NoNewline(s: string) { forall i :: 0 <= i < |s| ==> s[i] != '\n' }

  predicate IsClean(s: string) { NoEsc(s) && NoNewline(s) }

  predicate NameChar(c: char) { 'a' <= c <= 'z' || 'A' <= c <= 'Z' || '0' <= c <= '9' || c == '_' }

  predicate AllNameChars(s: string) { forall i :: 0 <= i < |s| ==> NameChar(s[i]) }

  /** The names of syscalls and flags, all of them from static tables. */
  type Name = s: string | |s| > 0 && AllNameChars(s) witness "x"

  function Spaces(n: nat): (s: string)
    ensures |s| == n && NoEsc(s) && forall i :: 0 <= i < n ==> s[i] == ' '
  {
    if n == 0 then "" else " " + Spaces(n - 1)
  }

  function Join(parts: seq<string>, sep: string): string {
    if |parts| == 0 then "" else if |parts| == 1 then parts[0] else parts[0] + sep + Join(parts[1..], sep)
  }

  /** The parts of a text between separators. */
  function Split(s: string, separator: char): (parts: seq<string>)
    ensures |parts| > 0
  {
    if |s| == 0 then [""]
    else
      var rest := Split(s[1..], separator);
      if s[0] == separator then [""] + rest else [[s[0]] + rest[0]] + rest[1..]
  }

  lemma SplitStep(c: char, rest: string, separator: char)
    ensures c == separator ==> Split([c] + rest, separator) == [""] + Split(rest, separator)
    ensures c != separator ==>
              Split([c] + rest, separator) == [[c] + Split(rest, separator)[0]] + Split(rest, separator)[1..]
  {
    assert ([c] + rest)[1..] == rest;
  }

  lemma Grown(c: char, rest: seq<string>, more: seq<string>)
    requires |rest| > 0
    ensures [""] + (rest + more) == [""] + rest + more
    ensures [[c] + (rest + more)[0]] + (rest + more)[1..] == [[c] + rest[0]] + rest[1..] + more
  {
    assert (rest + more)[1..] == rest[1..] + more;
  }

  lemma {:induction false} SplitAt(a: string, b: string, separator: char)
    ensures Split(a + [separator] + b, separator) == Split(a, separator) + Split(b, separator)
  {
    if |a| == 0 {
      SplitStep(separator, b, separator);
      assert a + [separator] + b == [separator] + b;
    } else {
      hide Split;
      var c, tail := a[0], a[1..];
      SplitAt(tail, b, separator);
      SplitStep(c, tail + [separator] + b, separator);
      SplitStep(c, tail, separator);
      Grown(c, Split(tail, separator), Split(b, separator));
      assert a + [separator] + b == [c] + (tail + [separator] + b) && a == [c] + tail;
    }
  }

  lemma {:induction false} SplitPlain(s: string, separator: char)
    requires separator !in s
    ensures Split(s, separator) == [s]
  {
    if |s| > 0 {
      SplitPlain(s[1..], separator);
      assert s == [s[0]] + s[1..];
    }
  }

  /** Splitting undoes joining. */
  lemma {:induction false} SplitOfJoin(parts: seq<string>, separator: char)
    requires |parts| > 0 && forall p :: p in parts ==> separator !in p
    ensures Split(Join(parts, [separator]), separator) == parts
  {
    hide Split;
    assert parts[0] in parts;
    SplitPlain(parts[0], separator);
    if |parts| > 1 {
      SplitOfJoin(parts[1..], separator);
      SplitAt(parts[0], Join(parts[1..], [separator]), separator);
      assert parts == [parts[0]] + parts[1..];
    } else {
      assert parts == [parts[0]];
    }
  }

  /** And joining undoes splitting; no part holds a separator. */
  lemma {:induction false} JoinOfSplit(s: string, separator: char)
    ensures Join(Split(s, separator), [separator]) == s
    ensures forall p :: p in Split(s, separator) ==> separator !in p
  {
    if |s| > 0 {
      var rest := Split(s[1..], separator);
      JoinOfSplit(s[1..], separator);
      assert s == [s[0]] + s[1..];
      assert rest == [rest[0]] + rest[1..];
      if s[0] == separator {
        assert ([""] + rest)[1..] == rest;
      } else {
        assert ([[s[0]] + rest[0]] + rest[1..])[1..] == rest[1..];
      }
    }
  }

  function DigitChar(d: nat): char
    requires d < 16
  {
    if d < 10 then ('0' as int + d) as char else ('a' as int + (d - 10)) as char
  }

  function DigitValue(c: char): (d: nat) {
    if '0' <= c <= '9' then c as int - '0' as int
    else if 'a' <= c <= 'f' then c as int - 'a' as int + 10
    else 16
  }

  predicate Radix(r: nat) { r == 8 || r == 10 || r == 16 }

  lemma Quotient(n: nat, radix: nat)
    requires Radix(radix)
    ensures n / radix * radix + n % radix == n && n % radix < radix
    ensures n >= radix ==> 0 < n / radix < n
  {
  }

  /** The digits of a number, most significant first, without leading zeros. */
  function Digits(n: nat, radix: nat): (s: string)
    requires Radix(radix)
    ensures |s| > 0 && forall i :: 0 <= i < |s| ==> DigitValue(s[i]) < radix
    ensures NoEsc(s) && (|s| > 1 ==> s[0] != '0')
    decreases n
  {
    if n < radix then [DigitChar(n)]
    else
      Quotient(n, radix);
      Digits(n / radix, radix) + [DigitChar(n % radix)]
  }

  function FromDigits(s: string, radix: nat): nat {
    if |s| == 0 then 0 else FromDigits(s[..|s| - 1], radix) * radix + DigitValue(s[|s| - 1])
  }

  lemma {:induction false} DigitsReadBack(n: nat, radix: nat)
    requires Radix(radix)
    ensures FromDigits(Digits(n, radix), radix) == n
  {
    Quotient(n, radix);
    if n < radix {
      OneDigit([], n, radix);
    } else {
      DigitsReadBack(n / radix, radix);
      OneDigit(Digits(n / radix, radix), n % radix, radix);
    }
  }

  lemma OneDigit(high: string, low: nat, radix: nat)
    requires Radix(radix) && low < radix
    ensures FromDigits(high + [DigitChar(low)], radix) == FromDigits(high, radix) * radix + low
    ensures FromDigits([], radix) == 0
  {
    var s := high + [DigitChar(low)];
    assert s[..|s| - 1] == high;
  }

  /** Decimal text, as integers are displayed. */
  function Decimal(i: int): (s: string)
    ensures |s| > 0 && NoEsc(s) && (s[0] == '-' <==> i < 0)
  {
    assert DigitValue('-') == 16;
    if i < 0 then "-" + Digits(-i, 10) else Digits(i, 10)
  }

  function ReadDecimal(s: string): int {
    if |s| > 0 && s[0] == '-' then 0 - FromDigits(s[1..], 10) as int else FromDigits(s, 10)
  }

  lemma DecimalReadBack(i: int)
    ensures ReadDecimal(Decimal(i)) == i
  {
    if i < 0 {
      DigitsReadBack(-i, 10);
      assert Decimal(i)[1..] == Digits(-i, 10);
    } else {
      DigitsReadBack(i, 10);
      assert DigitValue('-') == 16;
    }
  }
}
