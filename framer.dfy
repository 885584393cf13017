/**
 * The framer `read_until_42` of src/m1_2__simple_server.c.
 *
 * The socket is a finite trace of read(2) outcomes, allocation results are
 * flags, and memory that malloc/realloc hand out uninitialised is a total
 * function `junk` (cell k of a fresh allocation holds junk(k)).  Every index
 * is allocated fresh at most once (the initial 128 cells, then each doubling
 * adds cells above the old size), so `junk` stands for arbitrary contents.
 *
 * `Loop`/`Frame` describe the C loop as a function of that input; the class
 * `FrameReader` is the step-by-step version over an array and is proved to
 * compute `Frame`.
 */
module Framer {
  import opened Wrappers

  /** Initial capacity of the scratch buffer. */
  const InitialBufferSize: nat := 128

  /** What one read(2) call on the client socket returns. */
  datatype ReadOutcome =
    | Data(bytes: seq<char>)  // a positive count of bytes
    | Eof                     // read returned 0: the client disconnected
    | Err                     // read returned -1

  /** Which of the three allocation calls succeed (every realloc shares one flag). */
  datatype Allocator = Allocator(scratchOk: bool, resultOk: bool, reallocOk: bool)

  /** How a call of read_until_42 ends. */
  datatype Outcome =
    | Framed(data: seq<char>)  // the returned, NUL-terminated buffer
    | Disconnected             // NULL after EOF
    | ReadFailed               // NULL after a read error
    | OutOfMemory              // NULL after malloc or realloc failed
    | Pending                  // the trace ended: the C call is still blocked in read
  {
    /** The C function returned NULL. */
    predicate IsNull() { Disconnected? || ReadFailed? || OutOfMemory? }
  }

  /** Index i closes a terminator: buf[i-1] == '4' and buf[i] == '2'. */
  predicate MatchAt(buf: seq<char>, i: int)
  {
    1 <= i < |buf| && buf[i - 1] == '4' && buf[i] == '2'
  }

  /** No index below k closes a terminator. */
  predicate NoMatchBelow(buf: seq<char>, k: int)
  {
    forall j :: 0 <= j < k ==> !MatchAt(buf, j)
  }

  /** The ascending scan from `from`: the first index at or above it that closes a terminator. */
  function FirstMatchFrom(buf: seq<char>, from: nat): (r: Option<nat>)
    requires from <= |buf|
    decreases |buf| - from
    ensures r.Some? ==> from <= r.value < |buf| && MatchAt(buf, r.value)
    ensures r.Some? ==> forall j :: from <= j < r.value ==> !MatchAt(buf, j)
    ensures r.None? ==> forall j :: from <= j < |buf| ==> !MatchAt(buf, j)
  {
    if from == |buf| then None
    else if MatchAt(buf, from) then Some(from)
    else FirstMatchFrom(buf, from + 1)
  }

  /** Whether an index closes a terminator depends only on the bytes up to it. */
  lemma MatchInPrefix(s: seq<char>, t: seq<char>, j: int)
    requires 0 <= j < |s|
    ensures MatchAt(s + t, j) == MatchAt(s, j)
  {
  }

  /** With no terminator below k, the scan from 0 and the scan from k agree. */
  lemma ScanSkipsClean(s: seq<char>, k: nat)
    requires k <= |s| && NoMatchBelow(s, k)
    ensures FirstMatchFrom(s, 0) == FirstMatchFrom(s, k)
  {
  }

  /** The first terminator of a prefix is the first terminator of any extension. */
  lemma FirstMatchPersists(s: seq<char>, t: seq<char>)
    requires FirstMatchFrom(s, 0).Some?
    ensures FirstMatchFrom(s + t, 0) == FirstMatchFrom(s, 0)
  {
    var i := FirstMatchFrom(s, 0).value;
    MatchInPrefix(s, t, i);
    forall j | 0 <= j < i ensures !MatchAt(s + t, j) { MatchInPrefix(s, t, j); }
  }

  /** The buffer after read(2) stored `bytes` at offset `off`. */
  function Overwrite(buf: seq<char>, off: nat, bytes: seq<char>): (r: seq<char>)
    requires off + |bytes| <= |buf|
    ensures |r| == |buf|
    ensures forall k :: off <= k < off + |bytes| ==> r[k] == bytes[k - off]
    ensures forall k :: 0 <= k < |buf| && !(off <= k < off + |bytes|) ==> r[k] == buf[k]
  {
    buf[..off] + bytes + buf[off + |bytes|..]
  }

  /** A fresh scratch buffer of the initial size, uninitialised. */
  function Initial(junk: nat -> char): (r: seq<char>)
    ensures |r| == InitialBufferSize
    ensures forall k :: 0 <= k < |r| ==> r[k] == junk(k)
  {
    seq(InitialBufferSize, k requires 0 <= k => junk(k))
  }

  /** The buffer after a successful realloc to twice its size. */
  function Grown(buf: seq<char>, junk: nat -> char): (r: seq<char>)
    ensures |r| == 2 * |buf| && r[..|buf|] == buf
    ensures forall k :: |buf| <= k < |r| ==> r[k] == junk(k)
  {
    buf + seq(|buf|, k requires 0 <= k => junk(|buf| + k))
  }

  /**
   * The requirement on the read oracle: every data read before the first
   * EOF or error returns a positive count no larger than the `size` bytes
   * requested, and the bytes it stores at offset `offset` (the count of the
   * previous read) stay inside the buffer.  Reads after the call has ended
   * play no part (`DecidedByPrefix`), so a trace can be cut short there.
   */
  predicate Fits(trace: seq<ReadOutcome>, offset: nat, size: nat)
    decreases |trace|
  {
    trace == [] ||
    match trace[0]
    case Eof => true
    case Err => true
    case Data(b) =>
      0 < |b| <= size && offset + |b| <= size &&
      Fits(trace[1..], |b|, if |b| == size then 2 * size else size)
  }

  /** The local state of read_until_42 between reads; bufferSize is |buf|. */
  datatype Scratch = Scratch(buf: seq<char>, bytesRead: nat, readIndex: nat)

  /** After one read: the call's result, or the state in which the loop continues. */
  datatype Next = Done(result: Outcome) | Continue(state: Scratch)

  /**
   * The end of one iteration, once the scan of `buf` (holding `filled`
   * bytes from the last read) found the terminator at `found` or not:
   * copy the frame, or grow the buffer if the read filled it, or go on.
   */
  function Decide(buf: seq<char>, filled: nat, found: Option<nat>, alloc: Allocator, junk: nat -> char): (n: Next)
    requires filled <= |buf| && (found.Some? ==> MatchAt(buf, found.value))
    ensures n.Continue? ==> n.state.bytesRead == filled && n.state.readIndex == |buf|
    ensures n.Continue? ==> |n.state.buf| == (if filled == |buf| then 2 * |buf| else |buf|)
    ensures n.Done? ==> n.result.Framed? || n.result.OutOfMemory?
    ensures n.Done? && n.result.Framed? ==> alloc.resultOk && EndsWithTerminator(n.result.data)
    ensures n.Done? && n.result.OutOfMemory? ==> !alloc.resultOk || !alloc.reallocOk
  {
    match found
    case Some(i) => if alloc.resultOk then Done(Framed(buf[..i + 1] + ['\0'])) else Done(OutOfMemory)
    case None =>
      if filled != |buf| then Continue(Scratch(buf, filled, |buf|))
      else if alloc.reallocOk then Continue(Scratch(Grown(buf, junk), filled, |buf|))
      else Done(OutOfMemory)
  }

  /** One iteration after a read delivered `b`: store it at `bytesRead`, scan from `readIndex`, decide. */
  function ReadStep(s: Scratch, b: seq<char>, alloc: Allocator, junk: nat -> char): (n: Next)
    requires s.readIndex <= |s.buf| && s.bytesRead + |b| <= |s.buf|
    ensures n.Continue? ==> n.state.bytesRead == |b| && n.state.readIndex == |s.buf|
    ensures n.Continue? ==> |n.state.buf| == (if |b| == |s.buf| then 2 * |s.buf| else |s.buf|)
    ensures n.Done? ==> n.result.Framed? || n.result.OutOfMemory?
    ensures n.Done? && n.result.Framed? ==> alloc.resultOk && EndsWithTerminator(n.result.data)
    ensures n.Done? && n.result.OutOfMemory? ==> !alloc.resultOk || !alloc.reallocOk
  {
    var buf := Overwrite(s.buf, s.bytesRead, b);
    Decide(buf, |b|, FirstMatchFrom(buf, s.readIndex), alloc, junk)
  }

  /** The remaining iterations of the `while (true)` loop, from state `s`, on the reads still to come. */
  function Loop(s: Scratch, trace: seq<ReadOutcome>, alloc: Allocator, junk: nat -> char): (r: Outcome)
    requires s.readIndex <= |s.buf|
    requires Fits(trace, s.bytesRead, |s.buf|)
    decreases |trace|
    ensures r.Pending? ==> AllData(trace)
    ensures r.Disconnected? || r.ReadFailed? ==> !AllData(trace)
  {
    if trace == [] then Pending
    else match trace[0]
      case Eof => Disconnected
      case Err => ReadFailed
      case Data(b) =>
        AllDataTail(trace);
        match ReadStep(s, b, alloc, junk)
        case Done(r) => r
        case Continue(next) => Loop(next, trace[1..], alloc, junk)
  }

  /** What read_until_42 returns on the read trace `trace`. */
  function Frame(trace: seq<ReadOutcome>, alloc: Allocator, junk: nat -> char): (r: Outcome)
    requires Fits(trace, 0, InitialBufferSize)
    ensures !alloc.scratchOk ==> r == OutOfMemory
    ensures r.Pending? ==> AllData(trace)
    ensures r.Disconnected? || r.ReadFailed? ==> !AllData(trace)
  {
    if !alloc.scratchOk then OutOfMemory
    else Loop(Scratch(Initial(junk), 0, 0), trace, alloc, junk)
  }

  /** How a trace ends when none of its bytes complete a frame: at the first EOF or error, or blocked. */
  function Ending(trace: seq<ReadOutcome>): (r: Outcome)
    ensures r.Disconnected? || r.ReadFailed? || r.Pending?
    ensures r.Pending? <==> AllData(trace)
    ensures r.Disconnected? <==> exists k :: 0 <= k < |trace| && AllData(trace[..k]) && trace[k].Eof?
    ensures r.ReadFailed? <==> exists k :: 0 <= k < |trace| && AllData(trace[..k]) && trace[k].Err?
  {
    if trace == [] then Pending
    else match trace[0]
      case Eof => assert AllData(trace[..0]); Disconnected
      case Err => assert AllData(trace[..0]); ReadFailed
      case Data(_) =>
        var r := Ending(trace[1..]);
        StopShift(trace);
        r
  }

  /** Past a data read at the head, the first stop of the trace is the first stop of its tail, one index later. */
  lemma StopShift(trace: seq<ReadOutcome>)
    requires trace != [] && trace[0].Data?
    ensures forall k :: 1 <= k <= |trace| ==> (AllData(trace[..k]) <==> AllData(trace[1..][..k - 1]))
    ensures (exists k :: 0 <= k < |trace| && AllData(trace[..k]) && trace[k].Eof?) <==>
      (exists k :: 0 <= k < |trace[1..]| && AllData(trace[1..][..k]) && trace[1..][k].Eof?)
    ensures (exists k :: 0 <= k < |trace| && AllData(trace[..k]) && trace[k].Err?) <==>
      (exists k :: 0 <= k < |trace[1..]| && AllData(trace[1..][..k]) && trace[1..][k].Err?)
  {
    forall k | 1 <= k <= |trace| ensures AllData(trace[..k]) <==> AllData(trace[1..][..k - 1]) {
      var head, tail := trace[..k], trace[1..][..k - 1];
      assert forall j :: 0 <= j < |tail| ==> tail[j] == head[j + 1];
      if AllData(tail) {
        forall j | 0 <= j < |head| ensures head[j].Data? {
          if j > 0 { assert head[j] == tail[j - 1]; }
        }
      }
    }
    assert !trace[0].Eof? && !trace[0].Err?;
  }

  /** Past a data read at the head, every read delivered data exactly when every later one did. */
  lemma AllDataTail(trace: seq<ReadOutcome>)
    requires trace != [] && trace[0].Data?
    ensures AllData(trace) <==> AllData(trace[1..])
  {
    if AllData(trace[1..]) {
      forall k | 0 <= k < |trace| ensures trace[k].Data? {
        if k > 0 { assert trace[k] == trace[1..][k - 1]; }
      }
    }
  }

  /** Every read in `trace` delivered data. */
  predicate AllData(trace: seq<ReadOutcome>)
  {
    forall k :: 0 <= k < |trace| ==> trace[k].Data?
  }

  /** The requirement on the reads holds of every prefix of the trace. */
  lemma {:induction false} FitsPrefix(trace: seq<ReadOutcome>, n: nat, offset: nat, size: nat)
    requires Fits(trace, offset, size) && n <= |trace|
    ensures Fits(trace[..n], offset, size)
    decreases n
  {
    if n > 0 && trace[0].Data? {
      var b := trace[0].bytes;
      FitsPrefix(trace[1..], n - 1, |b|, if |b| == size then 2 * size else size);
      assert trace[..n][1..] == trace[1..][..n - 1];
    }
  }

  /**
   * Once a read has stored at least one byte, no later read can fill the
   * whole buffer (it starts at the previous count and must stay inside), so
   * the buffer never grows again.
   */
  lemma {:induction false} NoGrowthAfterFirstRead(trace: seq<ReadOutcome>, offset: nat, size: nat)
    requires 0 < offset && Fits(trace, offset, size)
    ensures forall k :: 0 <= k < |trace| && AllData(trace[..k]) && trace[k].Data? ==> |trace[k].bytes| < size
    decreases |trace|
  {
    if trace != [] && trace[0].Data? {
      NoGrowthAfterFirstRead(trace[1..], |trace[0].bytes|, size);
      forall k | 0 <= k < |trace| && AllData(trace[..k]) && trace[k].Data?
        ensures |trace[k].bytes| < size
      {
        if k > 0 {
          assert trace[k] == trace[1..][k - 1];
          assert trace[1..][..k - 1] == trace[..k][1..];
        }
      }
    }
  }

  /** `data` ends in "42" followed by the NUL terminator. */
  predicate EndsWithTerminator(data: seq<char>)
  {
    3 <= |data| && data[|data| - 3] == '4' && data[|data| - 2] == '2' && data[|data| - 1] == '\0'
  }

  /** Every returned frame ends in "42" followed by the NUL terminator. */
  lemma {:induction false} FramedEndsWithTerminator(s: Scratch, trace: seq<ReadOutcome>, alloc: Allocator, junk: nat -> char)
    requires s.readIndex <= |s.buf| && Fits(trace, s.bytesRead, |s.buf|)
    ensures Loop(s, trace, alloc, junk).Framed? ==> alloc.resultOk && EndsWithTerminator(Loop(s, trace, alloc, junk).data)
    ensures Loop(s, trace, alloc, junk).OutOfMemory? ==> !alloc.resultOk || !alloc.reallocOk
    decreases |trace|
  {
    if trace != [] && trace[0].Data? {
      var n := ReadStep(s, trace[0].bytes, alloc, junk);
      if n.Continue? {
        FramedEndsWithTerminator(n.state, trace[1..], alloc, junk);
      }
    }
  }

  /**
   * After a scan has reached the end of the buffer with nothing read yet
   * that can grow it, the scan never runs again: the call can only end at
   * the next EOF or error, or stay blocked.
   */
  lemma {:induction false} ExhaustedScanNeverFrames(s: Scratch, trace: seq<ReadOutcome>, alloc: Allocator, junk: nat -> char)
    requires s.readIndex == |s.buf| && 0 < s.bytesRead
    requires Fits(trace, s.bytesRead, |s.buf|)
    ensures Loop(s, trace, alloc, junk) == Ending(trace)
    decreases |trace|
  {
    if trace != [] && trace[0].Data? {
      var b := trace[0].bytes;
      var buf := Overwrite(s.buf, s.bytesRead, b);
      assert FirstMatchFrom(buf, s.readIndex) == None;
      ExhaustedScanNeverFrames(Scratch(buf, |b|, |buf|), trace[1..], alloc, junk);
    }
  }

  /** Once the reads in a prefix of the trace end the call, the reads after it play no part. */
  lemma {:induction false} DecidedByPrefix(s: Scratch, trace: seq<ReadOutcome>, n: nat, alloc: Allocator, junk: nat -> char)
    requires s.readIndex <= |s.buf| && Fits(trace, s.bytesRead, |s.buf|) && n <= |trace|
    ensures Fits(trace[..n], s.bytesRead, |s.buf|)
    ensures !Loop(s, trace[..n], alloc, junk).Pending? ==> Loop(s, trace, alloc, junk) == Loop(s, trace[..n], alloc, junk)
    decreases n
  {
    FitsPrefix(trace, n, s.bytesRead, |s.buf|);
    if n > 0 && trace[0].Data? {
      var b := trace[0].bytes;
      var buf := Overwrite(s.buf, s.bytesRead, b);
      assert trace[..n][0] == trace[0];
      assert trace[..n][1..] == trace[1..][..n - 1];
      if FirstMatchFrom(buf, s.readIndex).None? {
        if |b| != |buf| {
          DecidedByPrefix(Scratch(buf, |b|, |buf|), trace[1..], n - 1, alloc, junk);
        } else if alloc.reallocOk {
          DecidedByPrefix(Scratch(Grown(buf, junk), |b|, |buf|), trace[1..], n - 1, alloc, junk);
        }
      }
    }
  }

  /**
   * From a state with data already read, a read that does not end the call
   * is the last one scanned.
   */
  lemma NextReadIsLastScanned(s: Scratch, trace: seq<ReadOutcome>, alloc: Allocator, junk: nat -> char)
    requires 0 < s.bytesRead && s.readIndex <= |s.buf| && Fits(trace, s.bytesRead, |s.buf|) && 1 <= |trace|
    requires Fits([trace[0]], s.bytesRead, |s.buf|)
    requires Loop(s, [trace[0]], alloc, junk).Pending?
    ensures Loop(s, trace, alloc, junk) == Ending(trace[1..])
  {
    var b := trace[0].bytes;
    var buf := Overwrite(s.buf, s.bytesRead, b);
    assert [trace[0]][0] == trace[0];
    assert FirstMatchFrom(buf, s.readIndex).None?;
    ExhaustedScanNeverFrames(Scratch(buf, |b|, |buf|), trace[1..], alloc, junk);
  }

  /**
   * Only the first two reads are ever scanned: if they do not end the call,
   * it ends at the first later EOF or error (or stays blocked) and never
   * returns a frame, whatever the later reads deliver.
   */
  lemma LaterReadsNeverScanned(trace: seq<ReadOutcome>, alloc: Allocator, junk: nat -> char)
    requires Fits(trace, 0, InitialBufferSize) && 2 <= |trace|
    ensures Fits(trace[..2], 0, InitialBufferSize)
    ensures !Frame(trace[..2], alloc, junk).Pending? ==> Frame(trace, alloc, junk) == Frame(trace[..2], alloc, junk)
    ensures Frame(trace[..2], alloc, junk).Pending? ==> Frame(trace, alloc, junk) == Ending(trace[2..])
  {
    var s0 := Scratch(Initial(junk), 0, 0);
    DecidedByPrefix(s0, trace, 2, alloc, junk);
    var t2 := trace[..2];
    if alloc.scratchOk && Loop(s0, t2, alloc, junk).Pending? {
      assert t2[0] == trace[0] && t2[1..] == [trace[1]];
      var b0 := trace[0].bytes;
      var buf1 := Overwrite(Initial(junk), 0, b0);
      assert FirstMatchFrom(buf1, 0).None?;
      assert trace[1..][0] == trace[1] && trace[1..][1..] == trace[2..];
      if |b0| != |buf1| {
        NextReadIsLastScanned(Scratch(buf1, |b0|, |buf1|), trace[1..], alloc, junk);
      } else {
        NextReadIsLastScanned(Scratch(Grown(buf1, junk), |b0|, |buf1|), trace[1..], alloc, junk);
      }
    }
  }

  /**
   * Because the buffer grows at most once, a returned frame holds at most
   * 2 * 128 bytes before its NUL terminator.
   */
  lemma FramedAtMostTwoBuffers(trace: seq<ReadOutcome>, alloc: Allocator, junk: nat -> char)
    requires Fits(trace, 0, InitialBufferSize)
    ensures Frame(trace, alloc, junk).Framed? ==> |Frame(trace, alloc, junk).data| <= 2 * InitialBufferSize + 1
  {
    if alloc.scratchOk && trace != [] && trace[0].Data? {
      var b0 := trace[0].bytes;
      var buf1 := Overwrite(Initial(junk), 0, b0);
      if FirstMatchFrom(buf1, 0).None? {
        if |b0| != |buf1| {
          BoundAfterFirstRead(Scratch(buf1, |b0|, |buf1|), trace[1..], alloc, junk);
        } else if alloc.reallocOk {
          BoundAfterFirstRead(Scratch(Grown(buf1, junk), |b0|, |buf1|), trace[1..], alloc, junk);
        }
      }
    }
  }

  /** From a state with data already read, a frame never outgrows the current buffer. */
  lemma {:induction false} BoundAfterFirstRead(s: Scratch, trace: seq<ReadOutcome>, alloc: Allocator, junk: nat -> char)
    requires 0 < s.bytesRead && s.readIndex <= |s.buf| && Fits(trace, s.bytesRead, |s.buf|)
    ensures Loop(s, trace, alloc, junk).Framed? ==> |Loop(s, trace, alloc, junk).data| <= |s.buf| + 1
    decreases |trace|
  {
    if trace != [] && trace[0].Data? {
      var b := trace[0].bytes;
      var buf := Overwrite(s.buf, s.bytesRead, b);
      if FirstMatchFrom(buf, s.readIndex).None? {
        BoundAfterFirstRead(Scratch(buf, |b|, |buf|), trace[1..], alloc, junk);
      }
    }
  }

  /**
   * Where the C code does frame correctly: when the first read holds a
   * "42", the result is that read's bytes up to and including its first
   * "42", NUL-terminated, whatever the uninitialised memory holds.
   */
  lemma FirstReadFrames(b: seq<char>, rest: seq<ReadOutcome>, alloc: Allocator, junk: nat -> char)
    requires alloc.scratchOk && alloc.resultOk
    requires Fits([Data(b)] + rest, 0, InitialBufferSize)
    requires FirstMatchFrom(b, 0).Some?
    ensures Frame([Data(b)] + rest, alloc, junk) == Framed(b[..FirstMatchFrom(b, 0).value + 1] + ['\0'])
  {
    var trace := [Data(b)] + rest;
    var buf := Overwrite(Initial(junk), 0, b);
    assert buf == b + Initial(junk)[|b|..];
    FirstMatchPersists(b, Initial(junk)[|b|..]);
    assert trace[0] == Data(b);
  }

  /**
   * The other case the C code frames correctly: a first read that fills the
   * 128-byte buffer without a "42", then a second read that completes one
   * (the two bytes may straddle the reads).  The buffer doubles, the scan
   * resumes at index 128, and the result is the bytes of both reads up to
   * and including their first "42", NUL-terminated.
   */
  lemma FramesAcrossGrowth(b0: seq<char>, b1: seq<char>, rest: seq<ReadOutcome>, alloc: Allocator, junk: nat -> char)
    requires alloc.scratchOk && alloc.resultOk && alloc.reallocOk
    requires Fits([Data(b0), Data(b1)] + rest, 0, InitialBufferSize)
    requires |b0| == InitialBufferSize && FirstMatchFrom(b0, 0).None? && FirstMatchFrom(b0 + b1, 0).Some?
    ensures Frame([Data(b0), Data(b1)] + rest, alloc, junk) ==
      Framed((b0 + b1)[..FirstMatchFrom(b0 + b1, 0).value + 1] + ['\0'])
  {
    var trace := [Data(b0), Data(b1)] + rest;
    assert trace[0] == Data(b0) && trace[1..] == [Data(b1)] + rest;
    assert Overwrite(Initial(junk), 0, b0) == b0;
    var s1 := Scratch(Grown(b0, junk), |b0|, |b0|);
    assert ReadStep(Scratch(Initial(junk), 0, 0), b0, alloc, junk) == Continue(s1);
    SecondReadFrames(b0, b1, rest, alloc, junk);
  }

  /** The second iteration of FramesAcrossGrowth: the scan from 128 of the doubled buffer finds the first "42". */
  lemma SecondReadFrames(b0: seq<char>, b1: seq<char>, rest: seq<ReadOutcome>, alloc: Allocator, junk: nat -> char)
    requires alloc.resultOk
    requires |b0| == InitialBufferSize && FirstMatchFrom(b0, 0).None? && FirstMatchFrom(b0 + b1, 0).Some?
    requires Fits([Data(b1)] + rest, |b0|, 2 * |b0|)
    ensures Loop(Scratch(Grown(b0, junk), |b0|, |b0|), [Data(b1)] + rest, alloc, junk) ==
      Framed((b0 + b1)[..FirstMatchFrom(b0 + b1, 0).value + 1] + ['\0'])
  {
    var grown := Grown(b0, junk);
    var buf1 := Overwrite(grown, |b0|, b1);
    var tail := grown[|b0| + |b1|..];
    assert buf1 == (b0 + b1) + tail;
    FirstMatchPersists(b0 + b1, tail);
    forall j | 0 <= j < |b0| ensures !MatchAt(buf1, j) {
      MatchInPrefix(b0, b1 + tail, j);
      assert buf1 == b0 + (b1 + tail);
    }
    ScanSkipsClean(buf1, |b0|);
    var i := FirstMatchFrom(b0 + b1, 0).value;
    assert buf1[..i + 1] == (b0 + b1)[..i + 1];
    assert ([Data(b1)] + rest)[0] == Data(b1);
  }

  /** 2 to the power n. */
  function Pow2(n: nat): (r: nat)
    ensures 1 <= r
  {
    if n == 0 then 1 else 2 * Pow2(n - 1)
  }

  /**
   * One call of read_until_42 on one connection.  The fields are the
   * function's locals (bufferSize, bytesRead, readIndex, the scratch buffer),
   * the position in the read trace, and a record of what was allocated and
   * freed.
   */
  class FrameReader {
    const trace: seq<ReadOutcome>
    const alloc: Allocator
    const junk: nat -> char
    var pos: nat                  // reads consumed so far
    var readBuffer: array<char>   // the scratch buffer
    var bufferSize: nat
    var bytesRead: nat            // the count returned by the last read
    var readIndex: nat            // where the scan resumes
    var scratchAllocated: bool
    var scratchFreed: bool
    var resultAllocated: bool
    ghost var growths: nat        // how often the buffer has doubled

    /**
     * The invariant of the read loop while no result has been decided.  It
     * is not a class invariant: the constructor leaves the locals at zero,
     * and ReadUntil42 establishes it when it allocates the scratch buffer.
     */
    ghost predicate InLoop()
      reads this
    {
      readBuffer.Length == bufferSize && readIndex <= bufferSize && pos <= |trace| &&
      bufferSize == InitialBufferSize * Pow2(growths) &&
      Fits(trace[pos..], bytesRead, bufferSize)
    }

    /** The state of the remaining loop, as the specification sees it. */
    ghost function State(): Scratch
      reads this, readBuffer
    {
      Scratch(readBuffer[..], bytesRead, readIndex)
    }

    constructor (trace: seq<ReadOutcome>, alloc: Allocator, junk: nat -> char)
      ensures this.trace == trace && this.alloc == alloc && this.junk == junk
      ensures pos == 0 && !scratchAllocated && !scratchFreed && !resultAllocated
    {
      this.trace, this.alloc, this.junk := trace, alloc, junk;
      pos, readBuffer := 0, new char[0];
      bufferSize, bytesRead, readIndex := 0, 0, 0;
      scratchAllocated, scratchFreed, resultAllocated := false, false, false;
      growths := 0;
    }

    /** read(2) stores `b` at offset bytesRead. */
    method Receive(b: seq<char>)
      requires bytesRead + |b| <= readBuffer.Length
      modifies readBuffer
      ensures readBuffer[..] == Overwrite(old(readBuffer[..]), bytesRead, b)
    {
      var k := 0;
      while k < |b|
        invariant 0 <= k <= |b|
        invariant forall j :: 0 <= j < readBuffer.Length ==>
          readBuffer[j] == if bytesRead <= j < bytesRead + k then b[j - bytesRead] else old(readBuffer[j])
      {
        readBuffer[bytesRead + k] := b[k];
        k := k + 1;
      }
      assert readBuffer[..] == Overwrite(old(readBuffer[..]), bytesRead, b);
    }

    /**
     * The inner scan: advance readIndex up to the buffer's capacity, stopping
     * at the first index that closes "42".  The test reads buf[readIndex - 1]
     * only after checking readIndex >= 1.
     */
    method Scan() returns (found: bool)
      requires readIndex <= bufferSize == readBuffer.Length
      modifies this`readIndex
      ensures old(readIndex) <= readIndex <= bufferSize
      ensures found ==> FirstMatchFrom(readBuffer[..], old(readIndex)) == Some(readIndex)
      ensures !found ==> FirstMatchFrom(readBuffer[..], old(readIndex)) == None && readIndex == bufferSize
    {
      found := false;
      while readIndex < bufferSize
        invariant old(readIndex) <= readIndex <= bufferSize
        invariant FirstMatchFrom(readBuffer[..], old(readIndex)) == FirstMatchFrom(readBuffer[..], readIndex)
      {
        var fourTwoPatternFound := readBuffer[readIndex] == '2' && readIndex >= 1 && readBuffer[readIndex - 1] == '4';
        if fourTwoPatternFound {
          assert MatchAt(readBuffer[..], readIndex);
          return true;
        }
        readIndex := readIndex + 1;
      }
    }

    /** malloc the exact-fit result and memcpy the bytes 0..i into it, then the NUL. */
    method CopyFrame(i: nat) returns (ret: array<char>)
      requires i < readBuffer.Length
      ensures fresh(ret) && ret[..] == readBuffer[..i + 1] + ['\0']
    {
      var actualStringLength := i + 2;
      ret := new char[actualStringLength];
      var k := 0;
      while k < i + 1
        invariant 0 <= k <= i + 1
        invariant forall j :: 0 <= j < k ==> ret[j] == readBuffer[j]
      {
        ret[k] := readBuffer[k];
        k := k + 1;
      }
      ret[actualStringLength - 1] := '\0';
      assert ret[..] == readBuffer[..i + 1] + ['\0'];
    }

    /** realloc to bufferSize cells: the old contents move, the new cells are uninitialised. */
    method Realloc()
      requires bufferSize == 2 * readBuffer.Length
      modifies this`readBuffer
      ensures fresh(readBuffer) && readBuffer[..] == Grown(old(readBuffer[..]), junk)
    {
      var src := readBuffer;
      var bigger := new char[bufferSize](j => junk(j));
      var k := 0;
      while k < src.Length
        invariant 0 <= k <= src.Length
        invariant forall j :: 0 <= j < k ==> bigger[j] == src[j]
        invariant forall j :: k <= j < bigger.Length ==> bigger[j] == junk(j)
      {
        bigger[k] := src[k];
        k := k + 1;
      }
      assert bigger[..] == Grown(src[..], junk);
      readBuffer := bigger;
    }

    /**
     * The end of one iteration, after the scan: copy the frame if the scan
     * `found` the terminator at `readIndex`, else grow the buffer if the
     * last read filled it.
     */
    method Settle(found: bool) returns (r: Option<Outcome>)
      requires readBuffer.Length == bufferSize && bytesRead <= bufferSize
      requires bufferSize == InitialBufferSize * Pow2(growths) && !resultAllocated
      requires found ==> MatchAt(readBuffer[..], readIndex)
      requires !found ==> readIndex == bufferSize
      modifies this`bufferSize, this`readBuffer, this`growths, this`resultAllocated
      ensures readBuffer == old(readBuffer) || fresh(readBuffer)
      ensures resultAllocated <==> r.Some? && r.value.Framed?
      ensures Decide(old(readBuffer[..]), bytesRead, if found then Some(readIndex) else None, alloc, junk)
        == if r.None? then Continue(State()) else Done(r.value)
      ensures r.None? ==> readBuffer.Length == bufferSize && bufferSize == InitialBufferSize * Pow2(growths)
    {
      r := None;
      if found {
        if !alloc.resultOk {
          r := Some(OutOfMemory);
        } else {
          var actualStringLength := readIndex + 2;
          var frame := CopyFrame(readIndex);
          assert frame.Length == actualStringLength;
          resultAllocated := true;
          r := Some(Framed(frame[..]));
        }
      } else if bytesRead == bufferSize {
        bufferSize := bufferSize * 2;
        if !alloc.reallocOk {
          r := Some(OutOfMemory);
        } else {
          Realloc();
          growths := growths + 1;
        }
      }
    }

    /** The part of one iteration after a read delivered `b`: store, scan, settle. */
    method ReadData(b: seq<char>) returns (r: Option<Outcome>)
      requires readBuffer.Length == bufferSize && readIndex <= bufferSize
      requires bufferSize == InitialBufferSize * Pow2(growths)
      requires bytesRead + |b| <= bufferSize && !resultAllocated
      modifies this`bytesRead, this`readIndex, this`bufferSize, this`readBuffer, this`growths, this`resultAllocated, readBuffer
      ensures readBuffer == old(readBuffer) || fresh(readBuffer)
      ensures resultAllocated <==> r.Some? && r.value.Framed?
      ensures ReadStep(old(State()), b, alloc, junk) == if r.None? then Continue(State()) else Done(r.value)
      ensures r.None? ==> readBuffer.Length == bufferSize && bufferSize == InitialBufferSize * Pow2(growths)
    {
      ghost var s0 := State();
      Receive(b);
      bytesRead := |b|;
      ghost var buf := readBuffer[..];
      assert buf == Overwrite(s0.buf, s0.bytesRead, b);
      var found := Scan();
      assert FirstMatchFrom(buf, s0.readIndex) == if found then Some(readIndex) else None;
      r := Settle(found);
    }

    /**
     * One iteration of the outer `while (true)` loop: read, then either end
     * the call (returning its result) or continue in the next state.
     */
    method Step() returns (r: Option<Outcome>)
      requires InLoop() && pos < |trace| && !resultAllocated
      modifies this, readBuffer
      ensures pos == old(pos) + 1 && (readBuffer == old(readBuffer) || fresh(readBuffer))
      ensures scratchAllocated == old(scratchAllocated) && scratchFreed == old(scratchFreed)
      ensures resultAllocated <==> r.Some? && r.value.Framed?
      ensures r.None? ==> InLoop() && Loop(State(), trace[pos..], alloc, junk) == old(Loop(State(), trace[pos..], alloc, junk))
      ensures r.Some? ==> !r.value.Pending? && r.value == old(Loop(State(), trace[pos..], alloc, junk))
    {
      ghost var rest := trace[pos..];
      assert rest[0] == trace[pos] && rest[1..] == trace[pos + 1..];
      var outcome := trace[pos];
      pos := pos + 1;
      match outcome {
        case Eof =>
          r := Some(Disconnected);
        case Err =>
          r := Some(ReadFailed);
        case Data(b) =>
          r := ReadData(b);
      }
    }

    /**
     * read_until_42: read until "42" is found, then return an exact-fit,
     * NUL-terminated copy of the scratch buffer up to and including the '2'.
     * On EOF, a read error or a failed allocation the result is NULL; the
     * scratch buffer is freed exactly when it was allocated and the call has
     * ended.
     */
    method ReadUntil42() returns (ret: Outcome)
      requires Fits(trace, 0, InitialBufferSize)
      modifies this
      ensures ret == Frame(trace, alloc, junk)
      ensures scratchAllocated == alloc.scratchOk
      ensures scratchFreed <==> scratchAllocated && !ret.Pending?
      ensures resultAllocated <==> ret.Framed?
    {
      ret := Pending;
      bytesRead, bufferSize, readIndex, pos := 0, InitialBufferSize, 0, 0;
      growths := 0;
      scratchAllocated, scratchFreed, resultAllocated := false, false, false;
      if !alloc.scratchOk {
        return OutOfMemory;
      }
      readBuffer := new char[bufferSize](j => junk(j));
      scratchAllocated := true;
      assert readBuffer[..] == Initial(junk);
      while pos < |trace| && ret.Pending?
        invariant pos <= |trace| && fresh(readBuffer)
        invariant scratchAllocated && !scratchFreed
        invariant resultAllocated <==> ret.Framed?
        invariant ret.Pending? ==> InLoop() && Loop(State(), trace[pos..], alloc, junk) == Frame(trace, alloc, junk)
        invariant !ret.Pending? ==> ret == Frame(trace, alloc, junk)
        decreases |trace| - pos
      {
        var r := Step();
        if r.Some? {
          ret := r.value;
        }
      }
      if !ret.Pending? {
        scratchFreed := true;
      }
    }
  }
}
