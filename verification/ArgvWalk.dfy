/** The bounded argv walk of the execve decoder, on top of the tracee memory readers. */
module ArgvWalk {
  import opened Prelude
  import opened LittleEndian
  import opened TraceeMemory

  const MAX_ARGV := 64
  const MAX_ARGV_ENTRY_BYTES: u64 := 256
  const PTR_BYTES := 8
  const SENTINEL_OVERFLOW := "..."
  const SENTINEL_UNREADABLE := "<unreadable>"
  const MAX_U64: u64 := 0xFFFF_FFFF_FFFF_FFFF

  function ReadPtrSlot(mem: Memory, addr: u64): Result<u64, MemError> {
    match ReadBytes(mem, addr, PTR_BYTES)
    case Err(e) => Err(e)
    case Ok(bytes) =>
      FromLeBound(bytes);
      Widths();
      Ok(FromLe(bytes))
  }

  /** An entry's text, from what `read_cstr` returns for it. */
  function EntryText(mem: Memory, utf8: Utf8, addr: u64): Result<string, MemError> {
    match ChunkScan(mem, Pieces(addr, MAX_ARGV_ENTRY_BYTES), MAX_ARGV_ENTRY_BYTES)
    case Ok(bytes) => Ok(utf8(bytes))
    case Err(e) => Err(e)
  }

  /** The two ways the walk looks at memory. */
  datatype Reader = Reader(slot: u64 -> Result<u64, MemError>, text: u64 -> Result<string, MemError>)

  function ReaderOf(mem: Memory, utf8: Utf8): Reader {
    Reader((a: u64) => ReadPtrSlot(mem, a), (a: u64) => EntryText(mem, utf8, a))
  }

  function SaturatingAdd(a: u64, b: u64): u64 { if a + b <= MAX_U64 then a + b else MAX_U64 }

  function Behind(front: seq<string>, r: Result<seq<string>, MemError>): Result<seq<string>, MemError> {
    match r
    case Ok(rest) => Ok(front + rest)
    case Err(e) => Err(e)
  }

  /** The walk from slot `cursor` on, with `left` entries to go; `first` until an entry is recorded. */
  function Walk(reader: Reader, cursor: u64, left: nat, first: bool): Result<seq<string>, MemError>
    decreases left
  {
    if left == 0 then Ok([SENTINEL_OVERFLOW])
    else
      var slot := reader.slot(cursor);
      if slot.Err? then (if first then Err(slot.error) else Ok([SENTINEL_UNREADABLE]))
      else if slot.value == 0 then Ok([])
      else
        var entry := reader.text(slot.value);
        if entry.Err? then Ok([SENTINEL_UNREADABLE])
        else Behind([entry.value], Walk(reader, SaturatingAdd(cursor, PTR_BYTES), left - 1, false))
  }

  lemma BehindNothing(r: Result<seq<string>, MemError>)
    ensures Behind([], r) == r
  {
    if r.Ok? {
      assert [] + r.value == r.value;
    }
  }

  lemma BehindTwice(a: seq<string>, b: seq<string>, r: Result<seq<string>, MemError>)
    ensures Behind(a, Behind(b, r)) == Behind(a + b, r)
  {
    if r.Ok? {
      assert a + (b + r.value) == a + b + r.value;
    }
  }

  method DecodeArgvEntry(mem: Memory, utf8: Utf8, addr: u64) returns (r: Result<string, MemError>)
    ensures r == EntryText(mem, utf8, addr)
  {
    var bytes, _ := ReadCstr(mem, addr, MAX_ARGV_ENTRY_BYTES);
    match bytes
    case Ok(b) => return Ok(utf8(b));
    case Err(e) => return Err(e);
  }

  method WalkArgv(mem: Memory, utf8: Utf8, argvAddr: u64) returns (r: Result<seq<string>, MemError>)
    ensures r == Walk(ReaderOf(mem, utf8), argvAddr, MAX_ARGV, true)
  {
    var entries: seq<string> := [];
    var cursor := argvAddr;
    var overflowed := true;
    ghost var reader := ReaderOf(mem, utf8);
    ghost var whole := Walk(reader, argvAddr, MAX_ARGV, true);
    BehindNothing(whole);
    for n := 0 to MAX_ARGV
      invariant |entries| == n && overflowed
      invariant whole == Behind(entries, Walk(reader, cursor, MAX_ARGV - n, n == 0))
    {
      var slot := ReadPtrSlot(mem, cursor);
      if slot.Err? {
        if |entries| == 0 { return Err(slot.error); }
        entries := entries + [SENTINEL_UNREADABLE];
        assert whole == Ok(entries);
        overflowed := false;
        break;
      }
      if slot.value == 0 {
        assert entries + [] == entries && whole == Ok(entries);
        overflowed := false;
        break;
      }
      var entry := DecodeArgvEntry(mem, utf8, slot.value);
      if entry.Err? {
        entries := entries + [SENTINEL_UNREADABLE];
        assert whole == Ok(entries);
        overflowed := false;
        break;
      }
      var next := SaturatingAdd(cursor, PTR_BYTES);
      BehindTwice(entries, [entry.value], Walk(reader, next, MAX_ARGV - n - 1, false));
      entries := entries + [entry.value];
      cursor := next;
    }
    if overflowed {
      entries := entries + [SENTINEL_OVERFLOW];
    }
    return Ok(entries);
  }

  // ------------------------------------------------------- the round trip

  /** `s` and a NUL stand in memory from `ptr` on, addresses wrapping. */
  ghost predicate Text(mem: Memory, ptr: u64, s: seq<byte>)
    decreases |s|
  {
    && ptr in mem.bytes
    && if |s| == 0 then mem.bytes[ptr] == 0
       else mem.bytes[ptr] == s[0] && s[0] != 0 && Text(mem, Wrap(ptr + 1), s[1..])
  }

  /** An argv: pointers of eight bytes each to strings of at most 255, then NULL, from `addr` on. */
  ghost predicate Laid(mem: Memory, addr: int, strings: seq<seq<byte>>, ptrs: seq<u64>)
    requires |strings| == |ptrs|
    decreases |strings|
  {
    && 0 <= addr && addr + 8 <= TWO_64
    && if |strings| == 0 then Fetch(mem.bytes, addr, 8) == Some(ToLe(0, 8))
       else LaidEntry(mem, addr, strings[0], ptrs[0]) && Laid(mem, addr + 8, strings[1..], ptrs[1..])
  }

  ghost predicate LaidEntry(mem: Memory, addr: int, s: seq<byte>, ptr: u64) {
    && 0 <= addr && addr + 8 <= TWO_64
    && ptr != 0 && Fetch(mem.bytes, addr, 8) == Some(ToLe(ptr, 8))
    && |s| <= 255 && Text(mem, ptr, s)
  }

  /** The first entries of an argv, whatever follows them. */
  ghost predicate LaidFront(mem: Memory, addr: int, strings: seq<seq<byte>>, ptrs: seq<u64>)
    requires |strings| == |ptrs|
  {
    forall i :: 0 <= i < |strings| ==> LaidEntry(mem, addr + 8 * i, strings[i], ptrs[i])
  }

  function DecodedStrings(utf8: Utf8, strings: seq<seq<byte>>): (r: seq<string>)
    ensures |r| == |strings|
  {
    seq(|strings|, i requires 0 <= i < |strings| => utf8(strings[i]))
  }

  /** What `left` entries of room show of the strings. */
  function ShownStrings(utf8: Utf8, strings: seq<seq<byte>>, left: nat): seq<string> {
    if |strings| < left then DecodedStrings(utf8, strings)
    else DecodedStrings(utf8, strings[..left]) + [SENTINEL_OVERFLOW]
  }

  lemma {:induction false} TextIsScanned(mem: Memory, ptr: u64, s: seq<byte>, remaining: u64, max: u64)
    requires mem.refused.None? && Text(mem, ptr, s) && |s| < remaining
    ensures ByteScan(mem, ptr, remaining, max) == Ok(s)
    decreases |s|
  {
    assert Fetch(mem.bytes, ptr + 1, 0) == Some([]);
    assert [mem.bytes[ptr]] + [] == [mem.bytes[ptr]];
    assert ReadBytes(mem, ptr, 1) == Ok([mem.bytes[ptr]]);
    if |s| > 0 {
      TextIsScanned(mem, Wrap(ptr + 1), s[1..], remaining - 1, max);
      assert s == [s[0]] + s[1..];
    }
  }

  lemma SlotRead(mem: Memory, addr: u64, ptr: u64)
    requires mem.refused.None? && Fetch(mem.bytes, addr, 8) == Some(ToLe(ptr, 8))
    ensures ReadPtrSlot(mem, addr) == Ok(ptr)
  {
    Widths();
    LeRoundTrip(ptr, PTR_BYTES);
  }

  /** An entry laid out in memory is read: its pointer, and its string. */
  lemma EntryRead(mem: Memory, utf8: Utf8, addr: u64, s: seq<byte>, ptr: u64)
    requires mem.refused.None? && PageGranular(mem) && LaidEntry(mem, addr, s, ptr)
    ensures ReadPtrSlot(mem, addr) == Ok(ptr) && EntryText(mem, utf8, ptr) == Ok(utf8(s))
  {
    SlotRead(mem, addr, ptr);
    TextIsScanned(mem, ptr, s, MAX_ARGV_ENTRY_BYTES, MAX_ARGV_ENTRY_BYTES);
    ChunksAreBytes(mem, ptr, MAX_ARGV_ENTRY_BYTES, MAX_ARGV_ENTRY_BYTES);
  }

  lemma DecodedStringsCons(utf8: Utf8, strings: seq<seq<byte>>)
    requires |strings| > 0
    ensures DecodedStrings(utf8, strings) == [utf8(strings[0])] + DecodedStrings(utf8, strings[1..])
  {
  }

  lemma {:induction false} WalkReadsBack(mem: Memory, utf8: Utf8, addr: u64, strings: seq<seq<byte>>, ptrs: seq<u64>, left: nat, first: bool)
    requires mem.refused.None? && PageGranular(mem) && |strings| == |ptrs| && Laid(mem, addr, strings, ptrs)
    ensures Walk(ReaderOf(mem, utf8), addr, left, first) == Ok(ShownStrings(utf8, strings, left))
    decreases left
  {
    if left == 0 {
      assert strings[..0] == [];
      assert DecodedStrings(utf8, []) + [SENTINEL_OVERFLOW] == [SENTINEL_OVERFLOW];
    } else if |strings| == 0 {
      SlotRead(mem, addr, 0);
    } else {
      EntryRead(mem, utf8, addr, strings[0], ptrs[0]);
      WalkReadsBack(mem, utf8, addr + PTR_BYTES, strings[1..], ptrs[1..], left - 1, false);
      ShownStringsCons(utf8, strings, left);
    }
  }

  lemma ShownStringsCons(utf8: Utf8, strings: seq<seq<byte>>, left: nat)
    requires |strings| > 0 && left > 0
    ensures ShownStrings(utf8, strings, left) == [utf8(strings[0])] + ShownStrings(utf8, strings[1..], left - 1)
  {
    DecodedStringsCons(utf8, strings);
    if |strings| >= left {
      DecodedStringsCons(utf8, strings[..left]);
      assert strings[..left][1..] == strings[1..][..left - 1];
    }
  }

  /**
   Round trip: an argv laid out in memory is read back whole when it has at most 63 strings,
   and as its first 64 followed by "..." when it has 64 or more.
   */
  lemma ArgvRoundTrip(mem: Memory, utf8: Utf8, addr: u64, strings: seq<seq<byte>>, ptrs: seq<u64>)
    requires mem.refused.None? && PageGranular(mem) && |strings| == |ptrs| && Laid(mem, addr, strings, ptrs)
    ensures Walk(ReaderOf(mem, utf8), addr, MAX_ARGV, true)
              == Ok(if |strings| <= 63 then DecodedStrings(utf8, strings)
                    else DecodedStrings(utf8, strings[..64]) + ["..."])
  {
    WalkReadsBack(mem, utf8, addr, strings, ptrs, MAX_ARGV, true);
  }

  /** At most `left` entries and a last one, which is then the overflow mark. */
  ghost predicate Bounded(entries: seq<string>, left: nat) {
    |entries| <= left + 1 && (|entries| == left + 1 ==> entries[left] == SENTINEL_OVERFLOW)
  }

  ghost predicate WalkBounded(r: Result<seq<string>, MemError>, left: nat) {
    r.Ok? && Bounded(r.value, left)
  }

  lemma BoundedCons(entry: string, rest: Result<seq<string>, MemError>, left: nat)
    requires WalkBounded(rest, left)
    ensures WalkBounded(Behind([entry], rest), left + 1)
  {
  }

  lemma {:induction false} WalkGoesOn(reader: Reader, cursor: u64, left: nat)
    ensures WalkBounded(Walk(reader, cursor, left, false), left)
    decreases left
  {
    if left > 0 {
      WalkGoesOn(reader, SaturatingAdd(cursor, PTR_BYTES), left - 1);
      var rest := Walk(reader, SaturatingAdd(cursor, PTR_BYTES), left - 1, false);
      var slot := reader.slot(cursor);
      if slot.Ok? && reader.text(slot.value).Ok? {
        BoundedCons(reader.text(slot.value).value, rest, left - 1);
      }
    }
  }

  /**
   The walk fails exactly when the first slot cannot be read; an unreadable string, even the
   first, only ends the list. Otherwise it shows at most 64 entries and an overflow mark.
   */
  lemma FailsOnlyOnFirstSlot(mem: Memory, utf8: Utf8, addr: u64)
    ensures var r := Walk(ReaderOf(mem, utf8), addr, MAX_ARGV, true);
            if ReadPtrSlot(mem, addr).Err? then r == Err(ReadPtrSlot(mem, addr).error) else WalkBounded(r, MAX_ARGV)
  {
    WalkStarts(ReaderOf(mem, utf8), addr, MAX_ARGV);
  }

  lemma WalkStarts(reader: Reader, cursor: u64, left: nat)
    requires left > 0
    ensures var r := Walk(reader, cursor, left, true);
            if reader.slot(cursor).Err? then r == Err(reader.slot(cursor).error) else WalkBounded(r, left)
  {
    WalkGoesOn(reader, cursor, left);
  }

  // ------------------------------------------- the walk over any memory

  /** The address of the i-th slot; at the end of the address space the additions stick. */
  function SlotAt(addr: u64, i: nat): u64 {
    if addr + 8 * i <= 0xFFFF_FFFF_FFFF_FFFF then addr + 8 * i else 0xFFFF_FFFF_FFFF_FFFF
  }

  /** The first slots hold pointers to readable strings, and these are their texts. */
  ghost predicate Shows(reader: Reader, addr: u64, entries: seq<string>) {
    forall i :: 0 <= i < |entries| ==>
      var slot := reader.slot(SlotAt(addr, i));
      slot.Ok? && slot.value != 0 && reader.text(slot.value) == Ok(entries[i])
  }

  /** A slot, or the string it points to, cannot be read. */
  predicate Unreadable(reader: Reader, slot: u64) {
    reader.slot(slot).Err? || (reader.slot(slot).value != 0 && reader.text(reader.slot(slot).value).Err?)
  }

  lemma ShowsRest(reader: Reader, addr: u64, entries: seq<string>)
    requires |entries| > 0 && Shows(reader, addr, entries)
    ensures Shows(reader, SaturatingAdd(addr, PTR_BYTES), entries[1..])
    ensures reader.slot(addr).Ok? && reader.slot(addr).value != 0
    ensures reader.text(reader.slot(addr).value) == Ok(entries[0])
  {
    SlotShift(addr, 0);
    forall i | 0 <= i < |entries| - 1 ensures SlotAt(SaturatingAdd(addr, PTR_BYTES), i) == SlotAt(addr, i + 1) {
      SlotShift(addr, i);
    }
  }

  lemma SlotShift(addr: u64, i: nat)
    ensures SlotAt(SaturatingAdd(addr, PTR_BYTES), i) == SlotAt(addr, i + 1)
    ensures SlotAt(addr, 0) == addr
  {
  }

  lemma MarkLast(entries: seq<string>, mark: string)
    requires |entries| > 0
    ensures [entries[0]] + entries[1..] == entries
    ensures [entries[0]] + (entries[1..] + [mark]) == entries + [mark]
  {
  }

  /** What follows the readable entries decides how the list ends. */
  lemma {:induction false} WalkExactly(reader: Reader, addr: u64, left: nat, first: bool, entries: seq<string>)
    requires |entries| <= left && Shows(reader, addr, entries)
    ensures var r, slot := Walk(reader, addr, left, first), SlotAt(addr, |entries|);
            && (|entries| == left ==> r == Ok(entries + ["..."]))
            && (|entries| < left && reader.slot(slot) == Ok(0) ==> r == Ok(entries))
            && (|entries| < left && Unreadable(reader, slot) ==>
                  r == if reader.slot(slot).Err? && entries == [] && first then Err(reader.slot(slot).error)
                       else Ok(entries + ["<unreadable>"]))
    decreases left
  {
    hide SlotAt, Shows;
    SlotShift(addr, 0);
    if |entries| > 0 {
      var next := SaturatingAdd(addr, PTR_BYTES);
      ShowsRest(reader, addr, entries);
      WalkExactly(reader, next, left - 1, false, entries[1..]);
      SlotShift(addr, |entries| - 1);
      MarkLast(entries, "...");
      MarkLast(entries, "<unreadable>");
    } else {
      assert entries + ["..."] == ["..."] && entries + ["<unreadable>"] == ["<unreadable>"];
    }
  }

  /** There is always such a front, as long as it can be. */
  lemma {:induction false} WalkEnds(reader: Reader, addr: u64, left: nat) returns (entries: seq<string>)
    ensures |entries| <= left && Shows(reader, addr, entries)
    ensures |entries| == left || reader.slot(SlotAt(addr, |entries|)) == Ok(0)
         || Unreadable(reader, SlotAt(addr, |entries|))
    decreases left
  {
    SlotShift(addr, 0);
    if left == 0 || reader.slot(addr) == Ok(0) || Unreadable(reader, addr) {
      entries := [];
    } else {
      var rest := WalkEnds(reader, SaturatingAdd(addr, PTR_BYTES), left - 1);
      entries := [reader.text(reader.slot(addr).value).value] + rest;
      ShowsMore(reader, addr, entries[0], rest);
      SlotShift(addr, |rest|);
    }
  }

  lemma ShowsMore(reader: Reader, addr: u64, entry: string, rest: seq<string>)
    requires Shows(reader, SaturatingAdd(addr, PTR_BYTES), rest)
    requires reader.slot(addr).Ok? && reader.slot(addr).value != 0 && reader.text(reader.slot(addr).value) == Ok(entry)
    ensures Shows(reader, addr, [entry] + rest)
  {
    forall i | 0 <= i < |rest| + 1
      ensures var slot := reader.slot(SlotAt(addr, i));
              slot.Ok? && slot.value != 0 && reader.text(slot.value) == Ok(([entry] + rest)[i])
    {
      SlotShift(addr, if i == 0 then 0 else i - 1);
    }
  }

  /**
   A hole in an argv: after k < 64 entries that are laid out, the next string, or its slot, cannot be read. The list
   shows the k strings and the mark, except that an unreadable first slot is the error itself.
   */
  lemma ArgvWithHole(mem: Memory, utf8: Utf8, addr: u64, strings: seq<seq<byte>>, ptrs: seq<u64>)
    requires mem.refused.None? && PageGranular(mem) && |strings| == |ptrs| < 64 && LaidFront(mem, addr, strings, ptrs)
    requires Unreadable(ReaderOf(mem, utf8), SlotAt(addr, |strings|))
    ensures var slot := ReadPtrSlot(mem, SlotAt(addr, |strings|));
            Walk(ReaderOf(mem, utf8), addr, MAX_ARGV, true)
              == if slot.Err? && strings == [] then Err(slot.error)
                 else Ok(DecodedStrings(utf8, strings) + ["<unreadable>"])
  {
    FrontIsShown(mem, utf8, addr, strings, ptrs);
    WalkExactly(ReaderOf(mem, utf8), addr, MAX_ARGV, true, DecodedStrings(utf8, strings));
  }

  lemma FrontIsShown(mem: Memory, utf8: Utf8, addr: u64, strings: seq<seq<byte>>, ptrs: seq<u64>)
    requires mem.refused.None? && PageGranular(mem) && |strings| == |ptrs| && LaidFront(mem, addr, strings, ptrs)
    ensures Shows(ReaderOf(mem, utf8), addr, DecodedStrings(utf8, strings))
  {
    hide LaidEntry, ReadPtrSlot, EntryText, PageGranular;
    forall i | 0 <= i < |strings|
      ensures ReadPtrSlot(mem, SlotAt(addr, i)) == Ok(ptrs[i]) && ptrs[i] != 0
      ensures EntryText(mem, utf8, ptrs[i]) == Ok(utf8(strings[i]))
    {
      EntryInSpace(mem, addr + 8 * i, strings[i], ptrs[i]);
      EntryRead(mem, utf8, addr + 8 * i, strings[i], ptrs[i]);
    }
  }

  lemma EntryInSpace(mem: Memory, addr: int, s: seq<byte>, ptr: u64)
    requires LaidEntry(mem, addr, s, ptr)
    ensures 0 <= addr && addr + 8 <= TWO_64 && ptr != 0
  {
  }

  /** A list that ends in neither mark is the whole argv: every entry was read, and a NULL slot ended it. */
  lemma NoMarkMeansNull(mem: Memory, utf8: Utf8, addr: u64)
    ensures var reader, r := ReaderOf(mem, utf8), Walk(ReaderOf(mem, utf8), addr, MAX_ARGV, true);
            r.Ok? && (r.value == [] || r.value[|r.value| - 1] !in ["...", "<unreadable>"]) ==>
              && |r.value| < 64 && Shows(reader, addr, r.value)
              && ReadPtrSlot(mem, SlotAt(addr, |r.value|)) == Ok(0)
  {
    hide Walk, Shows, SlotAt, ReadPtrSlot, EntryText;
    var reader := ReaderOf(mem, utf8);
    var entries := WalkEnds(reader, addr, MAX_ARGV);
    WalkExactly(reader, addr, MAX_ARGV, true, entries);
  }

  /**
   An entry, in terms of the memory alone: with `n` plain bytes from `addr` on, it is their text if a NUL follows, the
   error of a hole if a hole does, and TruncatedCstr when there are 256 of them.
   */
  lemma EntryExactly(mem: Memory, utf8: Utf8, addr: u64, n: nat)
    requires mem.refused.None? && PageGranular(mem) && n <= 256 && PlainFront(mem, addr, n)
    ensures n == 256 ==> EntryText(mem, utf8, addr) == Err(TruncatedCstr(256))
    ensures n < 256 && ByteAt(mem, addr, n) == None ==> EntryText(mem, utf8, addr) == Err(Vm(14))
    ensures n < 256 && ByteAt(mem, addr, n) == Some(0) ==>
              exists bytes: seq<byte> :: EntryText(mem, utf8, addr) == Ok(utf8(bytes)) && Holds(mem, addr, bytes, n)
  {
    hide ChunkScan, PageGranular, PlainFront, ByteAt;
    CstrExactly(mem, addr, 256, n);
    if n < 256 && ByteAt(mem, addr, n) == Some(0) {
      var r := ChunkScan(mem, Pieces(addr, 256), 256);
      assert Holds(mem, addr, r.value, n);
      assert EntryText(mem, utf8, addr) == Ok(utf8(r.value));
    }
  }

  /** These are the `n` bytes from `addr` on. */
  ghost predicate Holds(mem: Memory, addr: u64, bytes: seq<byte>, n: nat)
    requires n <= TWO_64
  {
    |bytes| == n && forall i :: 0 <= i < n ==> Some(bytes[i]) == ByteAt(mem, addr, i)
  }

  /** A slot: the number in the eight bytes at its address, least significant first, if all eight are mapped. */
  lemma SlotExactly(mem: Memory, addr: u64)
    requires mem.refused.None?
    ensures !Mapped(mem.bytes, addr, 8) ==> ReadPtrSlot(mem, addr) == Err(Vm(14))
    ensures Mapped(mem.bytes, addr, 8) ==>
              var b := k requires 0 <= k < 8 => mem.bytes[addr + k] as int;
              ReadPtrSlot(mem, addr)
              == Ok(b(0) + 0x100 * b(1) + 0x1_0000 * b(2) + 0x100_0000 * b(3) + 0x1_0000_0000 * b(4)
                    + 0x100_0000_0000 * b(5) + 0x1_0000_0000_0000 * b(6) + 0x100_0000_0000_0000 * b(7))
  {
    ReadBytesExactly(mem, addr, 8);
    if Mapped(mem.bytes, addr, 8) {
      var r := ReadBytes(mem, addr, 8).value;
      FromLeOfFour(r[..4], r[4..]);
      FromLeOfFour(r[4..], []);
      assert r[..4] + r[4..] == r && r[4..] + [] == r[4..];
    }
  }

  lemma FromLeOfFour(b: seq<byte>, more: seq<byte>)
    requires |b| == 4
    ensures FromLe(b + more)
         == b[0] as int + 0x100 * b[1] as int + 0x1_0000 * b[2] as int + 0x100_0000 * b[3] as int
            + 0x1_0000_0000 * FromLe(more)
  {
    var s := b + more;
    var t1, t2, t3 := s[1..], s[1..][1..], s[1..][1..][1..];
    assert t3[1..] == more;
    assert FromLe(t3) == b[3] as int + 256 * FromLe(more);
    assert FromLe(t2) == b[2] as int + 256 * FromLe(t3);
    assert FromLe(t1) == b[1] as int + 256 * FromLe(t2);
  }
}
