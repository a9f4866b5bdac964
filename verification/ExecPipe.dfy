/**
 How a failed exec reaches the parent: the child writes its errno into a pipe and exits, the
 parent reads it back. Transfers may be short, fail, or be interrupted; the n-th call is
 answered as the n-th entry of a schedule says.
 */
module ExecPipe {
  import opened Prelude
  import opened LittleEndian
  import opened TracerModel
  import Linux
  import opened System

  const EIO: Errno := 5

  /** Move at most `n` bytes, or fail; EINTR is a failure like any other here. */
  datatype Turn = Transfer(n: nat) | Fault(errno: Errno)

  type Schedule = nat -> Turn

  /** From call `bound` on, no call is interrupted. */
  ghost predicate FinitelyInterrupted(turns: Schedule, bound: nat) {
    forall i :: i >= bound ==> turns(i) != Fault(Linux.EINTR)
  }

  /** No call fails but by interruption, and every transfer moves something. */
  ghost predicate FaultFree(turns: Schedule) {
    forall i :: turns(i) == Fault(Linux.EINTR) || (turns(i).Transfer? && turns(i).n > 0)
  }

  /** Some call fails with this errno, and not by being interrupted. */
  ghost predicate Fails(turns: Schedule, e: Errno) { e != Linux.EINTR && exists i :: turns(i) == Fault(e) }

  class Pipe {
    var bytes: seq<byte>

    constructor ()
      ensures bytes == []
    {
      bytes := [];
    }

    /** write(2): Ok(n) has put the first n bytes in. */
    method Write(buf: seq<byte>, turn: Turn) returns (r: Result<nat, Errno>)
      modifies this
      ensures turn.Transfer? ==> r == Ok(Min(turn.n, |buf|)) && bytes == old(bytes) + buf[..Min(turn.n, |buf|)]
      ensures turn.Fault? ==> r == Err(turn.errno) && bytes == old(bytes)
    {
      match turn
      case Transfer(n) =>
        bytes := bytes + buf[..Min(n, |buf|)];
        return Ok(Min(n, |buf|));
      case Fault(e) => return Err(e);
    }

    /** read(2), all writers gone: Ok with no bytes is the end of the file. */
    method Read(len: nat, turn: Turn) returns (r: Result<seq<byte>, Errno>)
      modifies this
      ensures turn.Transfer? ==> var n := Min(turn.n, Min(len, |old(bytes)|));
                r == Ok(old(bytes)[..n]) && bytes == old(bytes)[n..]
      ensures turn.Fault? ==> r == Err(turn.errno) && bytes == old(bytes)
    {
      match turn
      case Transfer(n) =>
        var got := Min(n, Min(len, |bytes|));
        r := Ok(bytes[..got]);
        bytes := bytes[got..];
      case Fault(e) => return Err(e);
    }
  }

  lemma PrefixGrows(base: seq<byte>, data: seq<byte>, done: nat, n: nat)
    requires done + n <= |data|
    ensures base + data[..done] + data[done..][..n] == base + data[..done + n]
    ensures data[done..][n..] == data[done + n..]
  {
  }

  /** `write_all`: it succeeds exactly when everything got in; otherwise a strict prefix did, `sent` bytes long. */
  method WriteAll(pipe: Pipe, data: seq<byte>, turns: Schedule, ghost bound: nat) returns (r: Result<(), Errno>, ghost sent: nat)
    requires FinitelyInterrupted(turns, bound)
    modifies pipe
    ensures sent <= |data| && pipe.bytes == old(pipe.bytes) + data[..sent]
    ensures r.Ok? <==> sent == |data|
    ensures FaultFree(turns) ==> r.Ok?
    ensures r.Err? ==> r.error == Linux.EIO || Fails(turns, r.error)
  {
    var buf := data;
    var i := 0;
    sent := 0;
    while |buf| > 0
      invariant sent <= |data| && buf == data[sent..]
      invariant pipe.bytes == old(pipe.bytes) + data[..sent]
      decreases if i < bound then bound - i else 0, |buf|
    {
      var res := pipe.Write(buf, turns(i));
      assert i >= bound ==> turns(i) != Fault(Linux.EINTR);
      assert FaultFree(turns) ==> turns(i) == Fault(Linux.EINTR) || (turns(i).Transfer? && turns(i).n > 0);
      i := i + 1;
      match res {
        case Ok(n) =>
          if n == 0 { return Err(EIO), sent; }
          PrefixGrows(old(pipe.bytes), data, sent, n);
          buf, sent := buf[n..], sent + n;
        case Err(e) =>
          if e != EINTR { return Err(e), sent; }
      }
    }
    return Ok(()), sent;
  }

  /**
   `read_full`: what it fills is the front of what the pipe held, as much as fits. Without
   faults that is all there is, up to `want` bytes.
   */
  method ReadFull(pipe: Pipe, want: nat, turns: Schedule, ghost bound: nat) returns (r: Result<seq<byte>, Errno>)
    requires FinitelyInterrupted(turns, bound)
    modifies pipe
    ensures r.Ok? ==> |r.value| <= want && old(pipe.bytes) == r.value + pipe.bytes
    ensures FaultFree(turns) ==> r == Ok(old(pipe.bytes)[..Min(want, |old(pipe.bytes)|)])
    ensures r.Err? ==> Fails(turns, r.error)
  {
    var buf: seq<byte> := [];
    var i := 0;
    while |buf| < want
      invariant |buf| <= want && old(pipe.bytes) == buf + pipe.bytes
      decreases if i < bound then bound - i else 0, want - |buf|
    {
      var res := pipe.Read(want - |buf|, turns(i));
      assert i >= bound ==> turns(i) != Fault(Linux.EINTR);
      assert FaultFree(turns) ==> turns(i) == Fault(Linux.EINTR) || (turns(i).Transfer? && turns(i).n > 0);
      i := i + 1;
      match res {
        case Ok(got) =>
          if |got| == 0 { break; }
          buf := buf + got;
        case Err(e) =>
          if e != EINTR { return Err(e); }
      }
    }
    return Ok(buf);
  }

  // ------------------------------------------------------- the errno

  const SIGTRAP: Signal := 5
  const UNKNOWN_ERRNO: Errno := 0

  /** `i32::to_ne_bytes`, little-endian and two's complement. */
  function I32Bytes(x: int): (bytes: seq<byte>)
    requires -0x8000_0000 <= x < 0x8000_0000
    ensures |bytes| == 4
  {
    ToLe(x % 0x1_0000_0000, 4)
  }

  function I32Of(bytes: seq<byte>): int
    requires |bytes| == 4
  {
    var x := FromLe(bytes);
    if x < 0x8000_0000 then x else x - 0x1_0000_0000
  }

  lemma I32RoundTrip(x: int)
    requires -0x8000_0000 <= x < 0x8000_0000
    ensures I32Of(I32Bytes(x)) == x
  {
    Widths();
    LeRoundTrip(x % 0x1_0000_0000, 4);
  }

  /** `Errno::from_raw`, on the numbers the platform names. */
  function FromRaw(known: set<Errno>, raw: int): Errno { if raw in known then raw else UNKNOWN_ERRNO }

  /** An errno a failed call in the child can have come out with. */
  ghost predicate IsErrno(known: set<Errno>, e: Errno) {
    (e in known || e == UNKNOWN_ERRNO) && -0x8000_0000 <= e < 0x8000_0000
  }

  /** What the parent concludes from what the child left in the pipe. */
  function PipeVerdict(known: set<Errno>, left: seq<byte>): Error {
    if |left| >= 4 then ExecFailed(FromRaw(known, I32Of(left[..4]))) else TraceeGone
  }

  /** The verdict in numbers: the first four bytes as a signed word, if it is an errno the platform names. */
  lemma VerdictExactly(known: set<Errno>, left: seq<byte>)
    ensures |left| < 4 ==> PipeVerdict(known, left) == TraceeGone
    ensures |left| >= 4 ==>
              var word := left[0] as int + 0x100 * left[1] as int + 0x1_0000 * left[2] as int + 0x100_0000 * left[3] as int;
              var raw := if word < 0x8000_0000 then word else word - 0x1_0000_0000;
              PipeVerdict(known, left) == ExecFailed(if raw in known then raw else 0)
  {
    if |left| >= 4 {
      FourBytes(left[..4]);
    }
  }

  lemma FourBytes(b: seq<byte>)
    requires |b| == 4
    ensures FromLe(b) == b[0] as int + 0x100 * b[1] as int + 0x1_0000 * b[2] as int + 0x100_0000 * b[3] as int
  {
    var b1 := b[1..];
    var b2 := b1[1..];
    var b3 := b2[1..];
    assert b3[1..] == [];
    assert FromLe(b3) == b[3] as int && FromLe(b2) == b[2] as int + 256 * FromLe(b3) && FromLe(b1) == b[1] as int + 256 * FromLe(b2);
  }

  /** `read_exec_errno`: four bytes are an errno, fewer or an error mean nothing was reported. */
  method ReadExecErrno(pipe: Pipe, known: set<Errno>, turns: Schedule, ghost bound: nat) returns (e: Error)
    requires FinitelyInterrupted(turns, bound)
    modifies pipe
    ensures e == PipeVerdict(known, old(pipe.bytes)) || e == TraceeGone
    ensures FaultFree(turns) ==> e == PipeVerdict(known, old(pipe.bytes))
  {
    var n := ReadFull(pipe, 4, turns, bound);
    if n.Ok? && |n.value| == 4 {
      assert n.value == old(pipe.bytes)[..4];
      return ExecFailed(FromRaw(known, I32Of(n.value)));
    }
    return TraceeGone;
  }

  /** The failing end of `run_child`: report the errno, whatever comes of it, and exit. */
  method ReportExecFailure(pipe: Pipe, errno: Errno, turns: Schedule, ghost bound: nat)
    requires FinitelyInterrupted(turns, bound) && -0x8000_0000 <= errno < 0x8000_0000
    modifies pipe
    ensures exists sent :: 0 <= sent <= 4 && pipe.bytes == old(pipe.bytes) + I32Bytes(errno)[..sent]
    ensures FaultFree(turns) ==> pipe.bytes == old(pipe.bytes) + I32Bytes(errno)
  {
    var _, sent := WriteAll(pipe, I32Bytes(errno), turns, bound);
    assert pipe.bytes == old(pipe.bytes) + I32Bytes(errno)[..sent];
    assert I32Bytes(errno)[..4] == I32Bytes(errno);
  }

  /** What waitpid must say the second time for the exec to have worked. */
  predicate PastExec(status: WaitStatus) {
    status.PtraceEvent? || (status.Stopped? && status.sig == SIGTRAP)
  }

  /** Where the parent's waiting leads: a running root, an error, or the pipe. */
  datatype Path = Starts | Refuses(error: Error) | AsksPipe

  function ParentPath(first: Result<WaitStatus, Errno>, setOptions: Result<(), Errno>, cont: Result<(), Errno>,
                      second: Result<WaitStatus, Errno>): Path {
    if first.Err? then Refuses(Ptrace(first.error))
    else if IsDeath(first.value) then AsksPipe
    else if !(first.value.Stopped? && first.value.sig == SIGSTOP) then Refuses(TraceeGone)
    else if setOptions.Err? then Refuses(Ptrace(setOptions.error))
    else if cont.Err? then Refuses(Ptrace(cont.error))
    else if second.Err? then Refuses(Ptrace(second.error))
    else if IsDeath(second.value) then AsksPipe
    else if PastExec(second.value) then Starts
    else Refuses(TraceeGone)
  }

  /** What a working spawn looks like from the parent: the stop at SIGSTOP, then the exec's report. */
  predicate SpawnWorks(first: Result<WaitStatus, Errno>, setOptions: Result<(), Errno>, cont: Result<(), Errno>,
                       second: Result<WaitStatus, Errno>) {
    && first.Ok? && first.value.Stopped? && first.value.sig == Linux.SIGSTOP
    && setOptions.Ok? && cont.Ok?
    && second.Ok?
    && (second.value.PtraceEvent? || (second.value.Stopped? && second.value.sig == Linux.SIGTRAP))
  }

  /** The parent asks the pipe exactly when the child is reported dead, at either wait. */
  predicate ChildReportedDead(first: Result<WaitStatus, Errno>, setOptions: Result<(), Errno>, cont: Result<(), Errno>,
                              second: Result<WaitStatus, Errno>) {
    && first.Ok?
    && (|| first.value.Exited? || first.value.Signaled?
        || (&& first.value.Stopped? && first.value.sig == Linux.SIGSTOP && setOptions.Ok? && cont.Ok? && second.Ok?
            && (second.value.Exited? || second.value.Signaled?)))
  }

  /** Of the calls that failed, the first one's errno comes out; a status that fits nothing is TraceeGone. */
  lemma PathExactly(first: Result<WaitStatus, Errno>, setOptions: Result<(), Errno>, cont: Result<(), Errno>,
                    second: Result<WaitStatus, Errno>)
    ensures var path := ParentPath(first, setOptions, cont, second);
            var stopped := first.Ok? && first.value.Stopped? && first.value.sig == Linux.SIGSTOP;
            && (path == Starts <==> SpawnWorks(first, setOptions, cont, second))
            && (path == AsksPipe <==> ChildReportedDead(first, setOptions, cont, second))
            && (first.Err? ==> path == Refuses(Ptrace(first.error)))
            && (stopped && setOptions.Err? ==> path == Refuses(Ptrace(setOptions.error)))
            && (stopped && setOptions.Ok? && cont.Err? ==> path == Refuses(Ptrace(cont.error)))
            && (stopped && setOptions.Ok? && cont.Ok? && second.Err? ==> path == Refuses(Ptrace(second.error)))
            && (path.Refuses? && !path.error.Ptrace? ==> path.error == TraceeGone)
  {
  }

  /**
   `finish_parent`: the first stop, options, continue, the second stop. The tracer it
   returns knows the root as just past its exec.
   */
  method FinishParent(child: Pid, first: Result<WaitStatus, Errno>, setOptions: Result<(), Errno>, cont: Result<(), Errno>,
                      second: Result<WaitStatus, Errno>, pipe: Pipe, known: set<Errno>, turns: Schedule, ghost bound: nat)
    returns (r: Result<Tracer, Error>)
    requires FinitelyInterrupted(turns, bound)
    modifies pipe
    ensures match ParentPath(first, setOptions, cont, second)
            case Starts =>
              r.Ok? && fresh(r.value) && r.value.rootPid == child && r.value.tracees == map[child := NewRoot()] && !r.value.followForks
            case Refuses(e) => r == Err(e)
            case AsksPipe => r == Err(PipeVerdict(known, old(pipe.bytes))) || (r == Err(TraceeGone) && !FaultFree(turns))
    ensures r.Ok? <==> SpawnWorks(first, setOptions, cont, second)
    ensures r.Ok? ==> r.value.rootPid == child && r.value.tracees == Init(Config(child, false), Accepted).run.tracees
  {
    if first.Err? { return Err(Ptrace(first.error)); }
    if IsDeath(first.value) {
      var e := ReadExecErrno(pipe, known, turns, bound);
      return Err(e);
    }
    if !(first.value.Stopped? && first.value.sig == SIGSTOP) { return Err(TraceeGone); }
    if setOptions.Err? { return Err(Ptrace(setOptions.error)); }
    if cont.Err? { return Err(Ptrace(cont.error)); }
    if second.Err? { return Err(Ptrace(second.error)); }
    if IsDeath(second.value) {
      var e := ReadExecErrno(pipe, known, turns, bound);
      return Err(e);
    }
    if !PastExec(second.value) { return Err(TraceeGone); }
    var tracer := new Tracer(child);
    return Ok(tracer);
  }

  /** Four bytes of an errno come back as that errno, and a strict prefix of them as no errno at all. */
  lemma VerdictOnErrno(known: set<Errno>, errno: Errno, sent: nat)
    requires IsErrno(known, errno) && sent <= 4
    ensures PipeVerdict(known, I32Bytes(errno)[..sent]) == if sent == 4 then ExecFailed(errno) else TraceeGone
  {
    I32RoundTrip(errno);
    if sent == 4 {
      assert I32Bytes(errno)[..sent][..4] == I32Bytes(errno);
    }
  }

  /**
   A child that fails with `errno`, end to end, whether it gets as far as its SIGSTOP stop and fails in `execvp` or
   fails in `traceme` or `raise` and ends before any stop: the parent never reports another errno, and reports this
   one whatever the sizes of the transfers and however often they are interrupted, if none of them fails.
   */
  method FailedSpawn(child: Pid, errno: Errno, first: WaitStatus, second: WaitStatus, known: set<Errno>,
                     writes: Schedule, ghost writeBound: nat, readTurns: Schedule, ghost readBound: nat)
    returns (e: Error)
    requires IsErrno(known, errno)
    requires IsDeath(first) || (first == Stopped(child, Linux.SIGSTOP) && IsDeath(second))
    requires FinitelyInterrupted(writes, writeBound) && FinitelyInterrupted(readTurns, readBound)
    ensures e == ExecFailed(errno) || e == TraceeGone
    ensures FaultFree(writes) && FaultFree(readTurns) ==> e == ExecFailed(errno)
  {
    var pipe := new Pipe();
    ReportExecFailure(pipe, errno, writes, writeBound);
    ghost var left := pipe.bytes;
    ghost var sent :| 0 <= sent <= 4 && left == [] + I32Bytes(errno)[..sent];
    assert left == I32Bytes(errno)[..sent];
    VerdictOnErrno(known, errno, sent);
    VerdictOnErrno(known, errno, 4);
    assert I32Bytes(errno)[..4] == [] + I32Bytes(errno);
    var r := FinishParent(child, Ok(first), Ok(()), Ok(()), Ok(second), pipe, known, readTurns, readBound);
    return r.error;
  }

  /**
   A child whose exec succeeds, end to end: stopped by SIGSTOP, continued, and reported at its exec event or, without
   that option, at the SIGTRAP stop. The tracer that comes out is the one every run of the system starts with.
   */
  method SucceededSpawn(child: Pid, second: WaitStatus, known: set<Errno>, readTurns: Schedule, ghost readBound: nat)
    returns (tracer: Tracer)
    requires second == PtraceEvent(child, Linux.EXEC_EVENT) || second == Stopped(child, Linux.SIGTRAP)
    requires FinitelyInterrupted(readTurns, readBound)
    ensures fresh(tracer) && tracer.rootPid == child && !tracer.followForks
    ensures tracer.tracees == Init(Config(child, false), Accepted).run.tracees
  {
    var pipe := new Pipe();
    var r := FinishParent(child, Ok(Stopped(child, Linux.SIGSTOP)), Ok(()), Ok(()), Ok(second), pipe, known, readTurns, readBound);
    return r.value;
  }
}
