/**
 loi-memory: reading another process's bytes, and C strings page by page.

 Addresses are 64 bits and wrap, as in a release build. Memory is a snapshot: which
 addresses are mapped and to what, and whether the kernel lets the process be read at all.
 */
module TraceeMemory {
  import opened Prelude
  import opened Bits

  type Errno = int

  const EPERM: Errno := 1
  const EFAULT: Errno := 14
  const ENOSYS: Errno := 38

  const PAGE_SIZE := 4096
  const TWO_64 := 0x1_0000_0000_0000_0000

  datatype MemError = Vm(errno: Errno) | Ptrace(errno: Errno) | TruncatedCstr(max: u64)

  datatype Memory = Memory(refused: Option<Errno>, bytes: map<int, byte>)

  /** 64-bit wrap-around of a sum or difference of two 64-bit numbers. */
  function Wrap(x: int): (r: u64)
    requires -TWO_64 <= x < 2 * TWO_64
  {
    if x < 0 then x + TWO_64 else if x < TWO_64 then x else x - TWO_64
  }

  lemma WrapTwice(x: u64, m: nat, n: nat)
    requires m + n < TWO_64
    ensures Wrap(Wrap(x + m) + n) == Wrap(x + (m + n))
    ensures Wrap(x) == x
  {
  }

  /** The `len` bytes from `addr` on, if all of them are mapped. */
  function Fetch(bytes: map<int, byte>, addr: nat, len: nat): (r: Option<seq<byte>>)
    ensures r.Some? ==> |r.value| == len && addr + len <= if len == 0 then addr else TWO_64
    decreases len
  {
    if len == 0 then Some([])
    else if addr >= TWO_64 || addr !in bytes then None
    else
      match Fetch(bytes, addr + 1, len - 1)
      case None => None
      case Some(rest) => Some([bytes[addr]] + rest)
  }

  /** All of `len` bytes or an error: a short read counts as EFAULT, and EPERM leads to the unwritten fallback. */
  function ReadBytes(mem: Memory, addr: u64, len: nat): (r: Result<seq<byte>, MemError>)
    ensures r.Ok? ==> |r.value| == len
  {
    if len == 0 then Ok([])
    else if mem.refused == Some(EPERM) then Err(Ptrace(ENOSYS))
    else if mem.refused.Some? then Err(Vm(mem.refused.value))
    else
      match Fetch(mem.bytes, addr, len)
      case Some(bytes) => Ok(bytes)
      case None => Err(Vm(EFAULT))
  }

  /** `bytes.iter().position(|&b| b == 0)`. */
  function NulPosition(bytes: seq<byte>): (r: Option<nat>)
    ensures r.Some? ==> r.value < |bytes|
  {
    if |bytes| == 0 then None
    else if bytes[0] == 0 then Some(0)
    else
      match NulPosition(bytes[1..])
      case None => None
      case Some(i) => Some(i + 1)
  }

  /** It is the position of the first NUL. */
  lemma {:induction false} NulPositionIsFirst(bytes: seq<byte>)
    ensures match NulPosition(bytes)
            case None => 0 !in bytes
            case Some(i) => bytes[i] == 0 && 0 !in bytes[..i]
  {
    if |bytes| > 0 && bytes[0] != 0 {
      NulPositionIsFirst(bytes[1..]);
      var rest := NulPosition(bytes[1..]);
      assert bytes == [bytes[0]] + bytes[1..];
      if rest.Some? {
        assert bytes[..rest.value + 1] == [bytes[0]] + bytes[1..][..rest.value];
      }
    }
  }

  /** The bytes from `cursor` to the end of its page. */
  function ToPageEnd(cursor: u64): (n: nat)
    ensures 0 < n <= PAGE_SIZE
  {
    PAGE_SIZE - cursor % PAGE_SIZE
  }

  /** The bit arithmetic of `read_cstr` comes to that, on every page, the last one included. */
  lemma PageBits(cursor: u64)
    ensures var nextPage := Wrap(Or(cursor, PAGE_SIZE - 1) + 1);
            Wrap(nextPage - cursor) == ToPageEnd(cursor)
  {
    OrPageMask(cursor);
    assert cursor - cursor % 4096 + 4096 <= TWO_64;
  }

  /** Without wrapping, the sum `(cursor | 4095) + 1` overflows exactly on the last page of the address space. */
  lemma PageSumOverflows(cursor: u64)
    ensures Or(cursor, PAGE_SIZE - 1) + 1 >= TWO_64 <==> cursor >= TWO_64 - PAGE_SIZE
  {
    OrPageMask(cursor);
  }

  function Prepend(bytes: seq<byte>, r: Result<seq<byte>, MemError>): Result<seq<byte>, MemError> {
    match r
    case Ok(rest) => Ok(bytes + rest)
    case Err(e) => Err(e)
  }

  /** A stretch of memory read in one call. */
  datatype Piece = Piece(from: u64, len: nat)

  /** How `remaining` bytes from `cursor` on are cut up: at every page boundary. */
  function Pieces(cursor: u64, remaining: u64): seq<Piece>
    decreases remaining
  {
    if remaining == 0 then []
    else
      var chunk := Min(remaining, ToPageEnd(cursor));
      [Piece(cursor, chunk)] + Pieces(Wrap(cursor + chunk), remaining - chunk)
  }

  /** The scan, one piece at a time. */
  function ChunkScan(mem: Memory, pieces: seq<Piece>, max: u64): Result<seq<byte>, MemError> {
    if |pieces| == 0 then Err(TruncatedCstr(max))
    else
      var read := ReadBytes(mem, pieces[0].from, pieces[0].len);
      if read.Err? then read
      else
        match NulPosition(read.value)
        case Some(i) => Ok(read.value[..i])
        case None => Prepend(read.value, ChunkScan(mem, pieces[1..], max))
  }

  /** The plain reader: one byte at a time. */
  function ByteScan(mem: Memory, cursor: u64, remaining: u64, max: u64): Result<seq<byte>, MemError>
    decreases remaining
  {
    if remaining == 0 then Err(TruncatedCstr(max))
    else
      match ReadBytes(mem, cursor, 1)
      case Err(e) => Err(e)
      case Ok(b) =>
        if b[0] == 0 then Ok([])
        else Prepend(b, ByteScan(mem, Wrap(cursor + 1), remaining - 1, max))
  }

  /** Memory is mapped in whole pages. */
  ghost predicate PageGranular(mem: Memory) {
    forall a: int, b: int :: a / PAGE_SIZE == b / PAGE_SIZE && a in mem.bytes ==> b in mem.bytes
  }

  predicate WithinOnePage(piece: Piece) {
    piece.len > 0 && piece.from / PAGE_SIZE == (piece.from + piece.len - 1) / PAGE_SIZE
  }

  lemma WithinPage(cursor: u64, chunk: nat)
    requires 0 < chunk <= ToPageEnd(cursor)
    ensures cursor + chunk <= TWO_64 && WithinOnePage(Piece(cursor, chunk))
    ensures chunk == ToPageEnd(cursor) ==> Wrap(cursor + chunk) % PAGE_SIZE == 0
  {
  }

  /** No piece crosses a page. */
  lemma {:induction false} PiecesStayInPages(cursor: u64, remaining: u64, k: nat)
    requires k < |Pieces(cursor, remaining)|
    ensures WithinOnePage(Pieces(cursor, remaining)[k])
    decreases remaining
  {
    var chunk := Min(remaining, ToPageEnd(cursor));
    WithinPage(cursor, chunk);
    if k > 0 {
      PiecesStayInPages(Wrap(cursor + chunk), remaining - chunk, k - 1);
    }
  }

  function TotalLen(pieces: seq<Piece>): nat {
    if |pieces| == 0 then 0 else TotalLen(pieces[..|pieces| - 1]) + pieces[|pieces| - 1].len
  }

  lemma {:induction false} TotalLenCons(piece: Piece, rest: seq<Piece>)
    ensures TotalLen([piece] + rest) == piece.len + TotalLen(rest)
  {
    var all := [piece] + rest;
    if |rest| == 0 {
      assert all == [piece] && all[..0] == [];
    } else {
      assert all[..|all| - 1] == [piece] + rest[..|rest| - 1];
      TotalLenCons(piece, rest[..|rest| - 1]);
    }
  }

  /** The pieces are the bytes asked for and no others: each starts where those before it end, and they end at the cap. */
  lemma {:induction false} PiecesAreAdjacent(cursor: u64, remaining: u64, k: nat)
    requires k <= |Pieces(cursor, remaining)|
    ensures var pieces := Pieces(cursor, remaining);
            && TotalLen(pieces[..k]) <= remaining
            && (k < |pieces| ==> pieces[k].from == Wrap(cursor + TotalLen(pieces[..k])))
            && (k == |pieces| ==> TotalLen(pieces[..k]) == remaining)
    decreases remaining
  {
    hide ToPageEnd, Wrap;
    if k == 0 {
      WrapTwice(cursor, 0, 0);
    } else {
      var chunk := Min(remaining, ToPageEnd(cursor));
      var rest := Pieces(Wrap(cursor + chunk), remaining - chunk);
      PiecesAreAdjacent(Wrap(cursor + chunk), remaining - chunk, k - 1);
      TotalLenCons(Piece(cursor, chunk), rest[..k - 1]);
      var pieces := [Piece(cursor, chunk)] + rest;
      assert pieces[..k] == [Piece(cursor, chunk)] + rest[..k - 1];
      WrapTwice(cursor, chunk, TotalLen(rest[..k - 1]));
    }
  }

  /** There are few pieces: one for each page's worth of bytes, one for the tail, one for a start inside a page. */
  lemma {:induction false} PiecesAreFew(cursor: u64, remaining: u64)
    ensures |Pieces(cursor, remaining)| <= remaining / PAGE_SIZE + if cursor % PAGE_SIZE == 0 then 1 else 2
    decreases remaining
  {
    if remaining > 0 {
      var chunk := Min(remaining, ToPageEnd(cursor));
      WithinPage(cursor, chunk);
      PiecesAreFew(Wrap(cursor + chunk), remaining - chunk);
    }
  }

  lemma PrependNothing(r: Result<seq<byte>, MemError>)
    ensures Prepend([], r) == r
  {
    if r.Ok? {
      assert [] + r.value == r.value;
    }
  }

  lemma PrependTwice(a: seq<byte>, b: seq<byte>, r: Result<seq<byte>, MemError>)
    ensures Prepend(a, Prepend(b, r)) == Prepend(a + b, r)
  {
    if r.Ok? {
      assert a + (b + r.value) == a + b + r.value;
    }
  }

  /** What reading the next piece says about the whole scan. */
  lemma ScanStep(mem: Memory, whole: Result<seq<byte>, MemError>, out: seq<byte>, piece: Piece, rest: seq<Piece>, max: u64)
    requires whole == Prepend(out, ChunkScan(mem, [piece] + rest, max))
    ensures var read := ReadBytes(mem, piece.from, piece.len);
            && (read.Err? ==> whole == read)
            && (read.Ok? && NulPosition(read.value).Some? ==> whole == Ok(out + read.value[..NulPosition(read.value).value]))
            && (read.Ok? && NulPosition(read.value).None? ==> whole == Prepend(out + read.value, ChunkScan(mem, rest, max)))
  {
    assert ([piece] + rest)[1..] == rest;
    var read := ReadBytes(mem, piece.from, piece.len);
    if read.Ok? {
      PrependTwice(out, read.value, ChunkScan(mem, rest, max));
    }
  }

  lemma NextPiece(cursor: u64, remaining: u64, chunk: nat)
    requires remaining > 0 && chunk == Min(remaining, ToPageEnd(cursor))
    ensures chunk > 0
    ensures Pieces(cursor, remaining) == [Piece(cursor, chunk)] + Pieces(Wrap(cursor + chunk), remaining - chunk)
  {
  }

  lemma OneMoreCall(pieces: seq<Piece>, calls: seq<Piece>, piece: Piece, todo: seq<Piece>)
    requires pieces == calls + ([piece] + todo)
    ensures pieces == (calls + [piece]) + todo && calls + [piece] <= pieces
  {
  }

  method BytesToPageEnd(cursor: u64) returns (toPage: u64)
    ensures toPage == ToPageEnd(cursor)
  {
    var nextPage: int := Wrap(Or(cursor, PAGE_SIZE - 1) + 1);
    toPage := Wrap(nextPage - cursor);
    PageBits(cursor);
  }

  /** `calls` are the calls of `read_bytes` it makes. */
  method ReadCstr(mem: Memory, addr: u64, max: u64) returns (r: Result<seq<byte>, MemError>, ghost calls: seq<Piece>)
    ensures r == ChunkScan(mem, Pieces(addr, max), max)
    ensures PageGranular(mem) ==> r == ByteScan(mem, addr, max, max)
    ensures calls <= Pieces(addr, max)
  {
    hide ByteScan, PageGranular, NulPosition, Fetch, ReadBytes, ToPageEnd;
    ghost var pieces := Pieces(addr, max);
    ghost var whole := ChunkScan(mem, pieces, max);
    if PageGranular(mem) {
      ChunksAreBytes(mem, addr, max, max);
    }
    PrependNothing(whole);
    var out: seq<byte> := [];
    var cursor := addr;
    var remaining: u64 := max;
    calls := [];
    ghost var todo := pieces;
    while remaining > 0
      invariant 0 <= remaining <= max
      invariant todo == Pieces(cursor, remaining) && pieces == calls + todo && calls <= pieces
      invariant whole == Prepend(out, ChunkScan(mem, todo, max))
    {
      var toPage := BytesToPageEnd(cursor);
      var chunk := Min(remaining, toPage);
      NextPiece(cursor, remaining, chunk);
      todo := Pieces(Wrap(cursor + chunk), remaining - chunk);
      ScanStep(mem, whole, out, Piece(cursor, chunk), todo, max);
      var bytes := ReadBytes(mem, cursor, chunk);
      OneMoreCall(pieces, calls, Piece(cursor, chunk), todo);
      calls := calls + [Piece(cursor, chunk)];
      if bytes.Err? {
        return Err(bytes.error), calls;
      }
      var nul := NulPosition(bytes.value);
      if nul.Some? {
        out := out + bytes.value[..nul.value];
        return Ok(out), calls;
      }
      out := out + bytes.value;
      cursor := Wrap(cursor + chunk);
      remaining := remaining - chunk;
    }
    r := Err(TruncatedCstr(max));
  }

  // -------------------------------------------- chunks against bytes

  /** The plain reader on one byte that can be read. */
  lemma ByteScanned(mem: Memory, cursor: u64, remaining: u64, max: u64)
    requires mem.refused.None? && remaining > 0 && cursor in mem.bytes
    ensures ByteScan(mem, cursor, remaining, max)
         == if mem.bytes[cursor] == 0 then Ok([])
            else Prepend([mem.bytes[cursor]], ByteScan(mem, Wrap(cursor + 1), remaining - 1, max))
  {
    assert Fetch(mem.bytes, cursor + 1, 0) == Some([]);
    assert [mem.bytes[cursor]] + [] == [mem.bytes[cursor]];
    assert ReadBytes(mem, cursor, 1) == Ok([mem.bytes[cursor]]);
  }

  lemma NulOfCons(first: byte, rest: seq<byte>)
    ensures first == 0 ==> NulPosition([first] + rest) == Some(0)
    ensures first != 0 && NulPosition(rest).None? ==> NulPosition([first] + rest) == None
    ensures first != 0 && NulPosition(rest).Some? ==>
              NulPosition([first] + rest) == Some(NulPosition(rest).value + 1)
              && ([first] + rest)[..NulPosition(rest).value + 1] == [first] + rest[..NulPosition(rest).value]
  {
    assert ([first] + rest)[1..] == rest;
  }

  /** Over bytes that can be read, the plain reader ends at the first NUL or carries on after them. */
  lemma {:induction false} FetchedIsScanned(mem: Memory, cursor: u64, n: nat, remaining: u64, max: u64)
    requires mem.refused.None? && n <= remaining && Fetch(mem.bytes, cursor, n).Some? && cursor + n <= TWO_64
    ensures var bytes := Fetch(mem.bytes, cursor, n).value;
            var scan := ByteScan(mem, cursor, remaining, max);
            match NulPosition(bytes)
            case Some(i) => scan == Ok(bytes[..i])
            case None => scan == Prepend(bytes, ByteScan(mem, Wrap(cursor + n), remaining - n, max))
    decreases n
  {
    hide ByteScan;
    if n == 0 {
      PrependNothing(ByteScan(mem, cursor, remaining, max));
    } else {
      hide NulPosition;
      var first := mem.bytes[cursor];
      var rest := Fetch(mem.bytes, cursor + 1, n - 1).value;
      ByteScanned(mem, cursor, remaining, max);
      NulOfCons(first, rest);
      if first != 0 {
        if n == 1 {
          EmptyHasNoNul();
          assert [first] + rest == [first];
        } else {
          FetchedIsScanned(mem, cursor + 1, n - 1, remaining - 1, max);
          PrependTwice([first], rest, ByteScan(mem, Wrap(cursor + n), remaining - n, max));
        }
      }
    }
  }

  lemma EmptyHasNoNul()
    ensures NulPosition([]) == None
  {
  }

  /** Within one page, either all bytes can be fetched or the first one cannot. */
  lemma {:induction false} FetchWithinPage(bytes: map<int, byte>, addr: nat, len: nat)
    requires forall a: int, b: int :: a / PAGE_SIZE == b / PAGE_SIZE && a in bytes ==> b in bytes
    requires addr in bytes && 0 < len <= PAGE_SIZE - addr % PAGE_SIZE && addr + len <= TWO_64
    ensures Fetch(bytes, addr, len).Some?
    decreases len
  {
    if len > 1 {
      assert (addr + 1) / PAGE_SIZE == addr / PAGE_SIZE;
      FetchWithinPage(bytes, addr + 1, len - 1);
    }
  }

  /** One chunk agrees with the plain reader over the same bytes. */
  lemma ChunkIsBytes(mem: Memory, cursor: u64, chunk: nat, remaining: u64, max: u64)
    requires PageGranular(mem) && 0 < chunk <= remaining && chunk <= ToPageEnd(cursor)
    ensures var read := ReadBytes(mem, cursor, chunk);
            var scan := ByteScan(mem, cursor, remaining, max);
            && (read.Err? ==> scan == read)
            && (read.Ok? && NulPosition(read.value).Some? ==> scan == Ok(read.value[..NulPosition(read.value).value]))
            && (read.Ok? && NulPosition(read.value).None? ==>
                  scan == Prepend(read.value, ByteScan(mem, Wrap(cursor + chunk), remaining - chunk, max)))
  {
    WithinPage(cursor, chunk);
    if mem.refused.None? && cursor in mem.bytes {
      FetchWithinPage(mem.bytes, cursor, chunk);
      FetchedIsScanned(mem, cursor, chunk, remaining, max);
    }
  }

  /**
   The page-chunked scan is the plain byte-at-a-time scan: same bytes, same truncation, same
   error, for every address, cap and memory mapped in whole pages.
   */
  lemma {:induction false} ChunksAreBytes(mem: Memory, cursor: u64, remaining: u64, max: u64)
    requires PageGranular(mem)
    ensures ChunkScan(mem, Pieces(cursor, remaining), max) == ByteScan(mem, cursor, remaining, max)
    decreases remaining
  {
    if remaining > 0 {
      var chunk := Min(remaining, ToPageEnd(cursor));
      var rest := Pieces(Wrap(cursor + chunk), remaining - chunk);
      ChunksAreBytes(mem, Wrap(cursor + chunk), remaining - chunk, max);
      NextPiece(cursor, remaining, chunk);
      assert ([Piece(cursor, chunk)] + rest)[1..] == rest;
      ChunkIsBytes(mem, cursor, chunk, remaining, max);
    }
  }

  // ------------------------------------------ what the readers mean

  /** The byte at the i-th address from `addr` on. */
  function ByteAt(mem: Memory, addr: u64, i: nat): Option<byte>
    requires i < TWO_64
  {
    var a := Wrap(addr + i);
    if a in mem.bytes then Some(mem.bytes[a]) else None
  }

  /** Every address of a span is mapped. */
  predicate Mapped(bytes: map<int, byte>, addr: int, len: nat) {
    forall a :: addr <= a < addr + len ==> a in bytes && a < TWO_64
  }

  /** All bytes are mapped, and these are they. */
  lemma {:induction false} FetchExactly(bytes: map<int, byte>, addr: nat, len: nat)
    ensures Fetch(bytes, addr, len).Some? <==> Mapped(bytes, addr, len)
    ensures Fetch(bytes, addr, len).Some? ==>
              forall i :: 0 <= i < len ==> addr + i in bytes && Fetch(bytes, addr, len).value[i] == bytes[addr + i]
    decreases len
  {
    if len > 0 {
      FetchExactly(bytes, addr + 1, len - 1);
      assert Mapped(bytes, addr, len) <==> addr in bytes && addr < TWO_64 && Mapped(bytes, addr + 1, len - 1);
    }
  }

  /**
   `read_bytes`: exactly the bytes asked for. A span that is not wholly mapped is EFAULT (14); EPERM (1) goes to the
   fallback, which answers ENOSYS (38); any other refusal keeps its errno.
   */
  lemma ReadBytesExactly(mem: Memory, addr: u64, len: nat)
    requires len > 0
    ensures var r := ReadBytes(mem, addr, len);
            && (mem.refused == Some(1) ==> r == Err(Ptrace(38)))
            && (mem.refused.Some? && mem.refused.value != 1 ==> r == Err(Vm(mem.refused.value)))
            && (mem.refused.None? && !Mapped(mem.bytes, addr, len) ==> r == Err(Vm(14)))
            && (mem.refused.None? && Mapped(mem.bytes, addr, len) ==>
                  && r.Ok? && |r.value| == len
                  && forall i :: 0 <= i < len ==> addr + i in mem.bytes && r.value[i] == mem.bytes[addr + i])
  {
    FetchExactly(mem.bytes, addr, len);
  }

  /** The first `n` bytes are there, and none of them is a NUL. */
  ghost predicate PlainFront(mem: Memory, addr: u64, n: nat)
    requires n <= TWO_64
  {
    forall i :: 0 <= i < n ==> ByteAt(mem, addr, i).Some? && ByteAt(mem, addr, i) != Some(0)
  }

  lemma NextByteAt(mem: Memory, addr: u64, i: nat)
    requires i + 1 < TWO_64
    ensures ByteAt(mem, Wrap(addr + 1), i) == ByteAt(mem, addr, i + 1)
  {
    WrapTwice(addr, 1, i);
  }

  lemma PlainFrontShift(mem: Memory, addr: u64, n: nat)
    requires n < TWO_64
    ensures PlainFront(mem, addr, n + 1)
       <==> ByteAt(mem, addr, 0).Some? && ByteAt(mem, addr, 0) != Some(0) && PlainFront(mem, Wrap(addr + 1), n)
  {
    hide ByteAt;
    var next := Wrap(addr + 1);
    forall i | 0 <= i < n ensures ByteAt(mem, next, i) == ByteAt(mem, addr, i + 1) {
      NextByteAt(mem, addr, i);
    }
    if PlainFront(mem, addr, n + 1) {
      assert ByteAt(mem, addr, 0).Some?;
      forall i | 0 <= i < n ensures ByteAt(mem, next, i).Some? && ByteAt(mem, next, i) != Some(0) {
        assert ByteAt(mem, addr, i + 1).Some?;
      }
    } else if ByteAt(mem, addr, 0).Some? && ByteAt(mem, addr, 0) != Some(0) && PlainFront(mem, next, n) {
      forall i | 0 <= i < n + 1 ensures ByteAt(mem, addr, i).Some? && ByteAt(mem, addr, i) != Some(0) {
        assert i > 0 ==> ByteAt(mem, next, i - 1).Some?;
      }
    }
  }

  lemma ByteScanStep(mem: Memory, cursor: u64, remaining: u64, max: u64)
    requires mem.refused.None? && remaining > 0
    ensures ByteScan(mem, cursor, remaining, max)
         == match ByteAt(mem, cursor, 0) {
              case None => Err(Vm(14))
              case Some(b) =>
                if b == 0 then Ok([]) else Prepend([b], ByteScan(mem, Wrap(cursor + 1), remaining - 1, max))
            }
  {
    WrapTwice(cursor, 0, 0);
    assert Fetch(mem.bytes, cursor + 1, 0) == Some([]);
    if cursor in mem.bytes {
      assert [mem.bytes[cursor]] + [] == [mem.bytes[cursor]];
      assert ReadBytes(mem, cursor, 1) == Ok([mem.bytes[cursor]]);
    }
  }

  /** Where a C string ends: `n` plain bytes and then a NUL, the cap, or a hole. */
  lemma {:induction false} ByteScanExactly(mem: Memory, addr: u64, n: nat, remaining: u64, max: u64)
    requires mem.refused.None? && n <= remaining && PlainFront(mem, addr, n)
    ensures n == remaining ==> ByteScan(mem, addr, remaining, max) == Err(TruncatedCstr(max))
    ensures n < remaining && ByteAt(mem, addr, n) == None ==> ByteScan(mem, addr, remaining, max) == Err(Vm(14))
    ensures n < remaining && ByteAt(mem, addr, n) == Some(0) ==>
              var r := ByteScan(mem, addr, remaining, max);
              r.Ok? && |r.value| == n && forall i :: 0 <= i < n ==> Some(r.value[i]) == ByteAt(mem, addr, i)
    decreases n
  {
    hide ByteAt, PlainFront, ReadBytes;
    if n == 0 {
      if remaining > 0 {
        ByteScanStep(mem, addr, remaining, max);
      }
    } else {
      hide ByteScan;
      PlainFrontShift(mem, addr, n - 1);
      ByteScanStep(mem, addr, remaining, max);
      ByteScanExactly(mem, Wrap(addr + 1), n - 1, remaining - 1, max);
      forall i | 1 <= i <= n && i < TWO_64 ensures ByteAt(mem, Wrap(addr + 1), i - 1) == ByteAt(mem, addr, i) {
        NextByteAt(mem, addr, i - 1);
      }
    }
  }

  /**
   `read_cstr` in terms of the memory alone, when the process can be read: with `n` plain bytes from `addr` on, it gives
   exactly those bytes if a NUL follows within the cap, TruncatedCstr if the cap does, and EFAULT if a hole does.
   */
  lemma CstrExactly(mem: Memory, addr: u64, max: u64, n: nat)
    requires mem.refused.None? && PageGranular(mem) && n <= max && PlainFront(mem, addr, n)
    ensures var r := ChunkScan(mem, Pieces(addr, max), max);
            && (n == max ==> r == Err(TruncatedCstr(max)))
            && (n < max && ByteAt(mem, addr, n) == None ==> r == Err(Vm(14)))
            && (n < max && ByteAt(mem, addr, n) == Some(0) ==>
                  r.Ok? && |r.value| == n && forall i :: 0 <= i < n ==> Some(r.value[i]) == ByteAt(mem, addr, i))
  {
    ChunksAreBytes(mem, addr, max, max);
    ByteScanExactly(mem, addr, n, max, max);
  }
}
