/**
 * Bitset decoding: the shared table helper of decoder.rs and the open flags of openat.rs. A machine word takes part
 * only through AND, OR and equality, so it is modelled as the set of its one-bits.
 */
module Flags {
  import opened Prelude

  type Word = set<nat>

  datatype Flag = Flag(mask: Word, name: string)

  function And(x: Word, y: Word): Word { x * y }

  function Or(x: Word, y: Word): Word { x + y }

  /** `raw & mask == mask` */
  predicate Contained(raw: Word, mask: Word) { And(raw, mask) == mask }

  /** The table entries a value is decoded to. */
  function Selected(raw: Word, table: seq<Flag>): seq<Flag> {
    if |table| == 0 then []
    else if table[0].mask != {} && Contained(raw, table[0].mask) then [table[0]] + Selected(raw, table[1..])
    else Selected(raw, table[1..])
  }

  function Names(flags: seq<Flag>): (names: seq<string>)
    ensures |names| == |flags|
  {
    if |flags| == 0 then [] else [flags[0].name] + Names(flags[1..])
  }

  function DecodeFlags(raw: Word, table: seq<Flag>): seq<string> {
    if raw == {} then [] else Names(Selected(raw, table))
  }

  /** The empty-bitset fast path changes nothing. */
  lemma {:induction false} FastPathAgrees(table: seq<Flag>)
    ensures Selected({}, table) == []
  {
    if |table| > 0 {
      FastPathAgrees(table[1..]);
    }
  }

  /** Exactly the non-zero masks contained in the value are selected. */
  lemma {:induction false} SelectedExactly(raw: Word, table: seq<Flag>, f: Flag)
    ensures f in Selected(raw, table) <==> f in table && f.mask != {} && f.mask <= raw
  {
    if |table| > 0 {
      SelectedExactly(raw, table[1..], f);
      assert table == [table[0]] + table[1..];
    }
  }

  lemma SelectedCons(raw: Word, f: Flag, rest: seq<Flag>)
    ensures Selected(raw, [f] + rest)
         == (if f.mask != {} && Contained(raw, f.mask) then [f] else []) + Selected(raw, rest)
  {
    assert ([f] + rest)[1..] == rest;
  }

  /** The selection keeps the table's order: it works piece by piece. */
  lemma {:induction false} SelectedInOrder(raw: Word, a: seq<Flag>, b: seq<Flag>)
    ensures Selected(raw, a + b) == Selected(raw, a) + Selected(raw, b)
  {
    if |a| == 0 {
      assert a + b == b;
    } else {
      hide Contained, Selected;
      SelectedInOrder(raw, a[1..], b);
      SelectedCons(raw, a[0], a[1..] + b);
      SelectedCons(raw, a[0], a[1..]);
      assert a + b == [a[0]] + (a[1..] + b) && a == [a[0]] + a[1..];
    }
  }

  /** The names that are shown, in their order. */
  function Pick(names: seq<string>, shown: seq<bool>): seq<string>
    requires |names| == |shown|
  {
    if |names| == 0 then []
    else (if shown[0] then [names[0]] else []) + Pick(names[1..], shown[1..])
  }

  lemma {:induction false} NamesAt(flags: seq<Flag>, i: nat)
    requires i < |flags|
    ensures Names(flags)[i] == flags[i].name
  {
    if i > 0 {
      NamesAt(flags[1..], i - 1);
    }
  }

  /** A value is decoded to the names of the non-zero masks it contains, in the order of the table. */
  lemma {:induction false} DecodeFlagsExactly(raw: Word, table: seq<Flag>, shown: seq<bool>)
    requires |shown| == |table|
    requires forall i :: 0 <= i < |table| ==> (shown[i] <==> table[i].mask != {} && table[i].mask <= raw)
    ensures DecodeFlags(raw, table) == Pick(Names(table), shown)
  {
    if raw == {} {
      FastPathAgrees(table);
    }
    if |table| > 0 {
      DecodeFlagsExactly(raw, table[1..], shown[1..]);
      assert Names(table)[1..] == Names(table[1..]);
      if shown[0] {
        assert Names([table[0]] + Selected(raw, table[1..])) == [table[0].name] + Names(Selected(raw, table[1..])) by {
          assert ([table[0]] + Selected(raw, table[1..]))[1..] == Selected(raw, table[1..]);
        }
      }
    }
  }

  function OrAll(flags: seq<Flag>): Word {
    if |flags| == 0 then {} else Or(flags[0].mask, OrAll(flags[1..]))
  }

  lemma {:induction false} OrAllOfSum(a: seq<Flag>, b: seq<Flag>)
    ensures OrAll(a + b) == Or(OrAll(a), OrAll(b))
  {
    if |a| == 0 {
      assert a + b == b;
    } else {
      OrAllOfSum(a[1..], b);
      assert (a + b)[1..] == a[1..] + b;
    }
  }

  predicate OneBit(mask: Word) { |mask| == 1 }

  /** A single bit is wholly in a value or wholly out of it. */
  lemma OneBitAllOrNothing(raw: Word, mask: Word)
    requires OneBit(mask)
    ensures Contained(raw, mask) || And(raw, mask) == {}
  {
    var b :| b in mask;
    assert |mask - {b}| == 0;
    assert mask == {b};
  }

  /** With one bit to an entry, the selected masks put together are the value cut down to the table's bits. */
  lemma {:induction false} OneBitTablesLossless(raw: Word, table: seq<Flag>)
    requires forall f :: f in table ==> OneBit(f.mask)
    ensures OrAll(Selected(raw, table)) == And(raw, OrAll(table))
  {
    if |table| > 0 {
      var f, rest := table[0], table[1..];
      assert f in table;
      OneBitAllOrNothing(raw, f.mask);
      OneBitTablesLossless(raw, rest);
      if Contained(raw, f.mask) {
        assert ([f] + Selected(raw, rest))[1..] == Selected(raw, rest);
      }
    }
  }

  /** What a printed name stands for, read back from a dictionary of names. */
  function MaskOf(name: string, dict: seq<Flag>): Word {
    if |dict| == 0 then {} else if dict[0].name == name then dict[0].mask else MaskOf(name, dict[1..])
  }

  function Meaning(names: seq<string>, dict: seq<Flag>): Word {
    if |names| == 0 then {} else Or(MaskOf(names[0], dict), Meaning(names[1..], dict))
  }

  predicate DistinctNames(dict: seq<Flag>) {
    forall i, j :: 0 <= i < j < |dict| ==> dict[i].name != dict[j].name
  }

  lemma {:induction false} NameFound(dict: seq<Flag>, k: nat)
    requires DistinctNames(dict) && k < |dict|
    ensures MaskOf(dict[k].name, dict) == dict[k].mask
  {
    if k > 0 {
      NameFound(dict[1..], k - 1);
    }
  }

  lemma {:induction false} MeaningOfNames(flags: seq<Flag>, dict: seq<Flag>)
    requires DistinctNames(dict) && forall f :: f in flags ==> f in dict
    ensures Meaning(Names(flags), dict) == OrAll(flags)
  {
    if |flags| > 0 {
      MeaningOfNames(flags[1..], dict);
      assert flags[0] in flags;
      var k :| 0 <= k < |dict| && dict[k] == flags[0];
      NameFound(dict, k);
      assert Names(flags)[1..] == Names(flags[1..]);
    }
  }

  /** Any value can be read back from the names of a one-bit table, up to the bits the table knows. */
  lemma DecodedFlagsReadBack(raw: Word, table: seq<Flag>, extra: seq<Flag>)
    requires DistinctNames(table + extra) && forall f :: f in table ==> OneBit(f.mask)
    ensures Meaning(DecodeFlags(raw, table), table + extra) == And(raw, OrAll(table))
  {
    FastPathAgrees(table);
    forall f | f in Selected(raw, table) ensures f in table + extra { SelectedExactly(raw, table, f); }
    MeaningOfNames(Selected(raw, table), table + extra);
    OneBitTablesLossless(raw, table);
  }

  // Memory protection: decoder.rs.

  const PROT_TABLE := [Flag({0}, "PROT_READ"), Flag({1}, "PROT_WRITE"), Flag({2}, "PROT_EXEC")]
  const PROT_NONE := Flag({}, "PROT_NONE")

  function DecodeProt(raw: Word): seq<string> {
    if raw == {} then ["PROT_NONE"] else DecodeFlags(raw, PROT_TABLE)
  }

  lemma ProtTable()
    ensures DistinctNames(PROT_TABLE + [PROT_NONE])
    ensures forall f :: f in PROT_TABLE ==> OneBit(f.mask)
    ensures OrAll(PROT_TABLE) == {0, 1, 2}
    ensures PROT_NONE !in PROT_TABLE
  {
    assert |"PROT_READ"| == |"PROT_EXEC"| == |"PROT_NONE"| == 9 && |"PROT_WRITE"| == 10;
    assert "PROT_READ"[5] == 'R' && "PROT_EXEC"[5] == 'E' && "PROT_NONE"[5] == 'N';
    assert PROT_TABLE[1..][1..] == [PROT_TABLE[2]];
    assert PROT_TABLE[1..][1..][1..] == [];
  }

  /** The printed protection never loses one of the three bits, and says PROT_NONE exactly of a zero word. */
  lemma ProtLossless(raw: Word)
    ensures Meaning(DecodeProt(raw), PROT_TABLE + [PROT_NONE]) == And(raw, {0, 1, 2})
    ensures DecodeProt(raw) == [PROT_NONE.name] <==> raw == {}
  {
    ProtTable();
    if raw == {} {
      NameFound(PROT_TABLE + [PROT_NONE], 3);
      assert DecodeProt(raw)[1..] == [];
    } else {
      DecodedFlagsReadBack(raw, PROT_TABLE, [PROT_NONE]);
      var kept := Selected(raw, PROT_TABLE);
      if |kept| > 0 {
        SelectedExactly(raw, PROT_TABLE, kept[0]);
        assert kept[0] in PROT_TABLE;
        assert DecodeProt(raw)[0] == kept[0].name;
      }
    }
  }

  /** The protection as it is printed. */
  lemma ProtNames(raw: Word)
    ensures DecodeProt(raw) == if raw == {} then ["PROT_NONE"]
                               else Pick(["PROT_READ", "PROT_WRITE", "PROT_EXEC"], [0 in raw, 1 in raw, 2 in raw])
  {
    if raw != {} {
      DecodeFlagsExactly(raw, PROT_TABLE, [0 in raw, 1 in raw, 2 in raw]);
      NamesAt(PROT_TABLE, 0);
      NamesAt(PROT_TABLE, 1);
      NamesAt(PROT_TABLE, 2);
      assert Names(PROT_TABLE) == ["PROT_READ", "PROT_WRITE", "PROT_EXEC"];
    }
  }

  // Open flags: openat.rs, with the constants of x86_64 Linux.

  const O_ACCMODE: Word := {0, 1}
  /** 0x410000, which takes in O_DIRECTORY */
  const O_TMPFILE := Flag({16, 22}, "O_TMPFILE")
  /** 0x10000 */
  const O_DIRECTORY := Flag({16}, "O_DIRECTORY")

  /** The entries of one bit each that no other entry shares: 0x40, 0x80, and so on up to O_PATH's 0x200000. */
  const SINGLE_BITS := [
    Flag({6}, "O_CREAT"), Flag({7}, "O_EXCL"), Flag({8}, "O_NOCTTY"), Flag({9}, "O_TRUNC"),
    Flag({10}, "O_APPEND"), Flag({11}, "O_NONBLOCK"), Flag({12}, "O_DSYNC"), Flag({14}, "O_DIRECT"),
    Flag({17}, "O_NOFOLLOW"), Flag({18}, "O_NOATIME"), Flag({19}, "O_CLOEXEC"), Flag({21}, "O_PATH")]
  const OPEN_TABLE := SINGLE_BITS + [O_TMPFILE, O_DIRECTORY]
  const ACCESS_MODES := [Flag({}, "O_RDONLY"), Flag({0}, "O_WRONLY"), Flag({1}, "O_RDWR")]
  const OPEN_DICT := OPEN_TABLE + ACCESS_MODES

  function AccessMode(flags: Word): Option<Flag> {
    var mode := And(flags, O_ACCMODE);
    if mode == {} then Some(ACCESS_MODES[0])
    else if mode == {0} then Some(ACCESS_MODES[1])
    else if mode == {1} then Some(ACCESS_MODES[2])
    else None
  }

  predicate IsPrinted(flags: Word, f: Flag) {
    && f.mask != {}
    && !(f.mask == O_DIRECTORY.mask && Contained(flags, O_TMPFILE.mask))
    && Contained(flags, f.mask)
  }

  function KeptFlags(flags: Word, table: seq<Flag>): seq<Flag> {
    if |table| == 0 then []
    else if IsPrinted(flags, table[0]) then [table[0]] + KeptFlags(flags, table[1..])
    else KeptFlags(flags, table[1..])
  }

  function Lead(flags: Word): seq<Flag> {
    if AccessMode(flags).Some? then [AccessMode(flags).value] else []
  }

  function OpenFlags(flags: Word): seq<Flag> { Lead(flags) + KeptFlags(flags, OPEN_TABLE) }

  lemma {:induction false} KeptOfSum(flags: Word, a: seq<Flag>, b: seq<Flag>)
    ensures KeptFlags(flags, a + b) == KeptFlags(flags, a) + KeptFlags(flags, b)
  {
    if |a| == 0 {
      assert a + b == b;
    } else {
      KeptOfSum(flags, a[1..], b);
      assert (a + b)[1..] == a[1..] + b;
    }
  }

  lemma NamesOfSum(a: seq<Flag>, b: seq<Flag>)
    ensures Names(a + b) == Names(a) + Names(b)
  {
    forall i | 0 <= i < |a| + |b| ensures Names(a + b)[i] == (Names(a) + Names(b))[i] {
      NamesAt(a + b, i);
      if i < |a| {
        NamesAt(a, i);
      } else {
        NamesAt(b, i - |a|);
      }
    }
  }

  /** One more table entry, printed or not. */
  lemma OneMoreEntry(flags: Word, lead: seq<Flag>, done: seq<Flag>, f: Flag)
    ensures Names(lead + KeptFlags(flags, done + [f]))
         == Names(lead + KeptFlags(flags, done)) + if IsPrinted(flags, f) then [f.name] else []
  {
    KeptOfSum(flags, done, [f]);
    assert [f][1..] == [];
    if IsPrinted(flags, f) {
      NamesOfSum(lead + KeptFlags(flags, done), [f]);
      assert lead + KeptFlags(flags, done + [f]) == lead + KeptFlags(flags, done) + [f];
    } else {
      assert lead + KeptFlags(flags, done + [f]) == lead + KeptFlags(flags, done);
    }
  }

  /** The scan over the table with its two skips. */
  method DecodeOpenFlags(flags: Word) returns (out: seq<string>)
    ensures out == Names(OpenFlags(flags))
  {
    out := [];
    var mode := AccessMode(flags);
    if mode.Some? {
      out := out + [mode.value.name];
    }
    assert out == Names(Lead(flags)) && Lead(flags) + [] == Lead(flags);
    var tmpfileSet := And(flags, O_TMPFILE.mask) == O_TMPFILE.mask;
    var table := OPEN_TABLE;
    var i := 0;
    while i < |table|
      invariant 0 <= i <= |table|
      invariant out == Names(Lead(flags) + KeptFlags(flags, table[..i]))
    {
      var f := table[i];
      OneMoreEntry(flags, Lead(flags), table[..i], f);
      assert table[..i + 1] == table[..i] + [f];
      i := i + 1;
      if f.mask == {} {
        continue;
      }
      if f.mask == O_DIRECTORY.mask && tmpfileSet {
        continue;
      }
      if And(flags, f.mask) == f.mask {
        out := out + [f.name];
      }
    }
    assert table[..i] == table;
  }

  lemma {:induction false} KeptIsPick(flags: Word, table: seq<Flag>, shown: seq<bool>)
    requires |shown| == |table|
    requires forall i :: 0 <= i < |table| ==> (shown[i] <==> IsPrinted(flags, table[i]))
    ensures Names(KeptFlags(flags, table)) == Pick(Names(table), shown)
  {
    hide IsPrinted;
    if |table| > 0 {
      KeptIsPick(flags, table[1..], shown[1..]);
      assert Names(table)[1..] == Names(table[1..]);
      assert ([table[0]] + KeptFlags(flags, table[1..]))[1..] == KeptFlags(flags, table[1..]);
    }
  }

  lemma BitPrinted(flags: Word, bit: nat, name: string)
    ensures bit != 16 ==> (IsPrinted(flags, Flag({bit}, name)) <==> bit in flags)
    ensures bit == 16 ==> (IsPrinted(flags, Flag({bit}, name)) <==> 16 in flags && 22 !in flags)
  {
    assert bit in {bit};
    assert bit != 16 ==> {bit} != O_DIRECTORY.mask;
    assert Contained(flags, {bit}) <==> bit in flags;
    TmpfilePrinted(flags);
  }

  lemma TmpfilePrinted(flags: Word)
    ensures IsPrinted(flags, O_TMPFILE) <==> 16 in flags && 22 in flags
    ensures Contained(flags, O_TMPFILE.mask) <==> 16 in flags && 22 in flags
  {
    assert 16 in O_TMPFILE.mask && 22 in O_TMPFILE.mask;
    assert O_TMPFILE.mask != O_DIRECTORY.mask by { assert 22 !in O_DIRECTORY.mask; }
    if 16 in flags && 22 in flags {
      assert And(flags, O_TMPFILE.mask) == O_TMPFILE.mask;
    } else {
      assert Contained(flags, O_TMPFILE.mask) ==> O_TMPFILE.mask <= flags;
    }
  }

  const OPEN_NAMES := [
    "O_CREAT", "O_EXCL", "O_NOCTTY", "O_TRUNC", "O_APPEND", "O_NONBLOCK", "O_DSYNC", "O_DIRECT", "O_NOFOLLOW",
    "O_NOATIME", "O_CLOEXEC", "O_PATH", "O_TMPFILE", "O_DIRECTORY"]

  function ModeName(flags: Word): seq<string> {
    if 0 in flags && 1 in flags then []
    else if 1 in flags then ["O_RDWR"]
    else if 0 in flags then ["O_WRONLY"]
    else ["O_RDONLY"]
  }

  lemma OpenTableNames()
    ensures Names(OPEN_TABLE) == OPEN_NAMES
  {
    forall i | 0 <= i < 14 ensures Names(OPEN_TABLE)[i] == OPEN_NAMES[i] { NamesAt(OPEN_TABLE, i); }
  }

  /** Which of the names are printed, bit by bit. */
  function ShownNames(flags: Word): (shown: seq<bool>)
    ensures |shown| == 14
  {
    [6 in flags, 7 in flags, 8 in flags, 9 in flags, 10 in flags, 11 in flags, 12 in flags, 14 in flags,
     17 in flags, 18 in flags, 19 in flags, 21 in flags,
     16 in flags && 22 in flags, 16 in flags && 22 !in flags]
  }

  const BITS := [6, 7, 8, 9, 10, 11, 12, 14, 17, 18, 19, 21]

  lemma SingleShown(flags: Word, i: nat)
    requires i < 12
    ensures OPEN_TABLE[i] == Flag({BITS[i]}, OPEN_NAMES[i]) && BITS[i] != 16
    ensures ShownNames(flags)[i] <==> BITS[i] in flags
  {
    assert OPEN_TABLE[i] == SINGLE_BITS[i];
  }

  lemma EachShown(flags: Word, i: nat)
    requires i < 14
    ensures ShownNames(flags)[i] <==> IsPrinted(flags, OPEN_TABLE[i])
  {
    hide IsPrinted;
    if i < 12 {
      hide ShownNames;
      SingleShown(flags, i);
      BitPrinted(flags, BITS[i], OPEN_NAMES[i]);
    } else {
      TmpfilePrinted(flags);
      BitPrinted(flags, 16, "O_DIRECTORY");
      assert OPEN_TABLE[12] == O_TMPFILE && OPEN_TABLE[13] == O_DIRECTORY;
    }
  }

  /** The open flags as they are printed. */
  lemma OpenFlagNames(flags: Word)
    ensures Names(OpenFlags(flags)) == ModeName(flags) + Pick(OPEN_NAMES, ShownNames(flags))
  {
    hide IsPrinted, KeptFlags, Names, Pick, ShownNames, Lead, ModeName;
    forall i | 0 <= i < 14 ensures ShownNames(flags)[i] <==> IsPrinted(flags, OPEN_TABLE[i]) {
      EachShown(flags, i);
    }
    KeptIsPick(flags, OPEN_TABLE, ShownNames(flags));
    OpenTableNames();
    NamesOfSum(Lead(flags), KeptFlags(flags, OPEN_TABLE));
    LeadName(flags);
  }

  lemma LeadName(flags: Word)
    ensures Names(Lead(flags)) == ModeName(flags)
  {
    ModeWord(flags);
    var mode := And(flags, O_ACCMODE);
    assert 0 in mode <==> 0 in flags;
    assert 1 in mode <==> 1 in flags;
    assert 0 !in flags && 1 !in flags ==> mode == {};
    assert 0 in flags && 1 !in flags ==> mode == {0};
    assert 0 !in flags && 1 in flags ==> mode == {1};
    if AccessMode(flags).Some? {
      assert Lead(flags)[1..] == [];
    }
  }

  lemma {:induction false} KeptIsSelected(flags: Word, table: seq<Flag>)
    requires forall f :: f in table ==> f.mask != O_DIRECTORY.mask
    ensures KeptFlags(flags, table) == Selected(flags, table)
  {
    if |table| > 0 {
      assert table[0] in table;
      KeptIsSelected(flags, table[1..]);
    }
  }

  lemma {:induction false} OrAllAvoids(table: seq<Flag>, bits: Word)
    requires forall f :: f in table ==> And(f.mask, bits) == {}
    ensures And(OrAll(table), bits) == {}
  {
    if |table| > 0 {
      assert table[0] in table;
      OrAllAvoids(table[1..], bits);
      assert And(OrAll(table), bits) == Or(And(table[0].mask, bits), And(OrAll(table[1..]), bits));
    }
  }

  lemma OpenNamesDistinct()
    ensures DistinctNames(OPEN_DICT)
  {
    assert "O_NONBLOCK"[4] == 'N' && "O_NOFOLLOW"[4] == 'F';
    forall i, j | 0 <= i < j < |OPEN_DICT|
      ensures OPEN_DICT[i].name != OPEN_DICT[j].name
    {
      var a, b := OPEN_DICT[i].name, OPEN_DICT[j].name;
      assert |a| != |b| || a[2] != b[2] || a[4] != b[4];
    }
  }

  /** The bits of O_TMPFILE, O_DIRECTORY and the access mode. */
  const OTHER_BITS: Word := {0, 1, 16, 22}

  lemma SingleBits()
    ensures forall f :: f in SINGLE_BITS ==> OneBit(f.mask) && And(f.mask, OTHER_BITS) == {}
    ensures forall f :: f in SINGLE_BITS ==> f.mask != O_DIRECTORY.mask && f.mask != O_TMPFILE.mask
  {
    forall k | 0 <= k < |SINGLE_BITS|
      ensures OneBit(SINGLE_BITS[k].mask) && And(SINGLE_BITS[k].mask, OTHER_BITS) == {}
    {
    }
  }

  function ModePart(flags: Word): Word { if O_ACCMODE <= flags then {} else And(flags, O_ACCMODE) }

  function TmpfilePart(flags: Word): Word {
    if Contained(flags, O_TMPFILE.mask) then O_TMPFILE.mask else And(flags, O_DIRECTORY.mask)
  }

  lemma OrOfOne(f: Flag)
    ensures OrAll([f]) == f.mask
  {
    assert [f][1..] == [];
  }

  lemma ModeWord(flags: Word)
    ensures OrAll(Lead(flags)) == ModePart(flags)
    ensures forall f :: f in Lead(flags) ==> f in ACCESS_MODES
  {
    var mode := And(flags, O_ACCMODE);
    assert 0 in flags && 1 in flags ==> mode == O_ACCMODE;
    assert 0 in flags && 1 !in flags ==> mode == {0};
    assert 0 !in flags && 1 in flags ==> mode == {1};
    assert 0 !in flags && 1 !in flags ==> mode == {};
    if AccessMode(flags).Some? {
      OrOfOne(AccessMode(flags).value);
    }
  }

  lemma KeptPair(flags: Word, f: Flag, g: Flag)
    ensures KeptFlags(flags, [f, g])
         == (if IsPrinted(flags, f) then [f] else []) + (if IsPrinted(flags, g) then [g] else [])
  {
    KeptOfSum(flags, [f], [g]);
    assert [f] + [g] == [f, g];
    assert [f][1..] == [] && [g][1..] == [];
  }

  lemma TmpfileWord(flags: Word)
    ensures OrAll(KeptFlags(flags, [O_TMPFILE, O_DIRECTORY])) == TmpfilePart(flags)
  {
    KeptPair(flags, O_TMPFILE, O_DIRECTORY);
    OrOfOne(O_TMPFILE);
    OrOfOne(O_DIRECTORY);
    assert O_TMPFILE.mask != O_DIRECTORY.mask by { assert 22 in O_TMPFILE.mask; }
    if !Contained(flags, O_DIRECTORY.mask) {
      assert 16 !in flags;
      assert 16 in O_TMPFILE.mask;
    }
  }

  lemma OpenFlagsSplit(flags: Word)
    ensures OpenFlags(flags) == Lead(flags) + (Selected(flags, SINGLE_BITS) + KeptFlags(flags, [O_TMPFILE, O_DIRECTORY]))
  {
    SingleBits();
    KeptOfSum(flags, SINGLE_BITS, [O_TMPFILE, O_DIRECTORY]);
    KeptIsSelected(flags, SINGLE_BITS);
  }

  lemma PrintedInDict(flags: Word)
    ensures forall f :: f in OpenFlags(flags) ==> f in OPEN_DICT
  {
    OpenFlagsSplit(flags);
    ModeWord(flags);
    KeptPair(flags, O_TMPFILE, O_DIRECTORY);
    forall f | f in OpenFlags(flags) ensures f in OPEN_DICT {
      SelectedExactly(flags, SINGLE_BITS, f);
    }
  }

  /** None of the names reads as a number. */
  lemma PrintedNamesAreNames(flags: Word)
    ensures forall i :: 0 <= i < |Names(OpenFlags(flags))| ==> |Names(OpenFlags(flags))[i]| > 1
  {
    PrintedInDict(flags);
    assert forall k :: 0 <= k < |OPEN_DICT| ==> |OPEN_DICT[k].name| > 1;
    forall i | 0 <= i < |Names(OpenFlags(flags))| ensures |Names(OpenFlags(flags))[i]| > 1 {
      NamesAt(OpenFlags(flags), i);
      assert OpenFlags(flags)[i] in OPEN_DICT;
    }
  }

  /** What the printed names stand for, as one word. */
  lemma PrintedWord(flags: Word)
    ensures Meaning(Names(OpenFlags(flags)), OPEN_DICT)
         == Or(ModePart(flags), Or(And(flags, OrAll(SINGLE_BITS)), TmpfilePart(flags)))
  {
    var kept, tail := Selected(flags, SINGLE_BITS), KeptFlags(flags, [O_TMPFILE, O_DIRECTORY]);
    OpenFlagsSplit(flags);
    SingleBits();
    OneBitTablesLossless(flags, SINGLE_BITS);
    OrAllOfSum(Lead(flags), kept + tail);
    OrAllOfSum(kept, tail);
    ModeWord(flags);
    TmpfileWord(flags);
    KeptPair(flags, O_TMPFILE, O_DIRECTORY);
    PrintedInDict(flags);
    OpenNamesDistinct();
    MeaningOfNames(OpenFlags(flags), OPEN_DICT);
  }

  /** The bits the printer knows about. */
  function KnownBits(): Word { Or(OrAll(OPEN_TABLE), O_ACCMODE) }

  /**
   * The printed names stand for the word, up to the bits the table knows, exactly when the access mode is one of the
   * three and O_TMPFILE's own bit does not stand without O_DIRECTORY's.
   */
  lemma OpenFlagsLossless(flags: Word)
    ensures Meaning(Names(OpenFlags(flags)), OPEN_DICT) == And(flags, KnownBits())
       <==> And(flags, O_ACCMODE) != {0, 1} && And(flags, O_TMPFILE.mask) != {22}
  {
    PrintedWord(flags);
    SingleBits();
    OrAllAvoids(SINGLE_BITS, OTHER_BITS);
    OrAllOfSum(SINGLE_BITS, [O_TMPFILE, O_DIRECTORY]);
    TableWord();
    WordAgrees(flags, OrAll(SINGLE_BITS));
  }

  lemma TableWord()
    ensures OrAll([O_TMPFILE, O_DIRECTORY]) == {16, 22}
  {
    OrAllOfSum([O_TMPFILE], [O_DIRECTORY]);
    OrOfOne(O_TMPFILE);
    OrOfOne(O_DIRECTORY);
  }

  lemma WordAgrees(flags: Word, singles: Word)
    requires And(singles, OTHER_BITS) == {}
    ensures Or(ModePart(flags), Or(And(flags, singles), TmpfilePart(flags)))
         == And(flags, Or(Or(singles, {16, 22}), O_ACCMODE))
       <==> And(flags, O_ACCMODE) != {0, 1} && And(flags, O_TMPFILE.mask) != {22}
  {
    assert 0 !in singles && 1 !in singles && 16 !in singles && 22 !in singles by {
      assert forall b :: b in OTHER_BITS && b in singles ==> b in And(singles, OTHER_BITS);
    }
    var printed := Or(ModePart(flags), Or(And(flags, singles), TmpfilePart(flags)));
    var known := And(flags, Or(Or(singles, {16, 22}), O_ACCMODE));
    assert 22 in known <==> 22 in flags;
    assert 0 in known <==> 0 in flags;
    assert And(flags, O_ACCMODE) == {0, 1} <==> 0 in flags && 1 in flags;
    assert And(flags, O_TMPFILE.mask) == {22} <==> 22 in flags && 16 !in flags;
    assert Contained(flags, O_TMPFILE.mask) <==> 22 in flags && 16 in flags;
    if And(flags, O_ACCMODE) == {0, 1} {
      assert 0 in known && 0 !in printed;
    } else if And(flags, O_TMPFILE.mask) == {22} {
      assert 22 in known && 22 !in printed;
    } else {
      forall b ensures b in printed <==> b in known {}
    }
  }

  /** O_DIRECTORY is printed exactly when its bit is set and O_TMPFILE, which takes it in, is not printed. */
  lemma DirectoryOnce(flags: Word)
    ensures O_DIRECTORY in OpenFlags(flags) <==> Contained(flags, O_DIRECTORY.mask) && O_TMPFILE !in OpenFlags(flags)
  {
    var lead, kept := Lead(flags), Selected(flags, SINGLE_BITS);
    OpenFlagsSplit(flags);
    KeptPair(flags, O_TMPFILE, O_DIRECTORY);
    NotElsewhere(flags, O_DIRECTORY);
    NotElsewhere(flags, O_TMPFILE);
    assert O_TMPFILE.mask != O_DIRECTORY.mask by { assert 22 in O_TMPFILE.mask; }
  }

  lemma NotElsewhere(flags: Word, f: Flag)
    requires f == O_TMPFILE || f == O_DIRECTORY
    ensures f !in Lead(flags) && f !in Selected(flags, SINGLE_BITS)
  {
    SingleBits();
    SelectedExactly(flags, SINGLE_BITS, f);
    assert 16 in f.mask;
    assert forall m :: m in ACCESS_MODES ==> 16 !in m.mask;
    ModeWord(flags);
  }
}
