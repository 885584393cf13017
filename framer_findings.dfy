/**
 * Three ways in which read_until_42, as written, departs from "return the
 * client's bytes up to the first '4','2'", each shown on a concrete input,
 * and a corrected framer proved to return exactly that.
 */
module FramerFindings {
  import opened Wrappers
  import opened Framer

  /** Every allocation succeeds. */
  const AllOk := Allocator(true, true, true)

  /** The bytes the client delivered before the first EOF or error. */
  function Stream(trace: seq<ReadOutcome>): (r: seq<char>)
    ensures AllData(trace) ==> |r| == TotalLength(trace)
  {
    if trace == [] then []
    else match trace[0]
      case Data(b) => b + Stream(trace[1..])
      case _ => []
  }

  /** The number of bytes in a trace of data reads. */
  function TotalLength(trace: seq<ReadOutcome>): nat
  {
    if trace == [] then 0
    else (if trace[0].Data? then |trace[0].bytes| else 0) + TotalLength(trace[1..])
  }

  /**
   * As written: each read asks for `size` bytes (the whole capacity) at
   * offset `off`, the previous read's count.  Whenever off > 0 the request
   * reaches past the end of the buffer, and a read that returns more than
   * the size - off bytes still free (read(2) may return up to the count
   * requested) breaks the requirement on the oracle.
   */
  lemma RequestOverrunsBuffer(off: nat, size: nat, b: seq<char>, rest: seq<ReadOutcome>)
    requires 0 < off <= size && size - off < |b| <= size
    ensures off + size > size
    ensures !Fits([Data(b)] + rest, off, size)
  {
  }

  /**
   * An instance: a 5-byte read, then a full 128-byte read, both within the
   * counts requested; the second one writes bytes 5..132 of a 128-byte buffer.
   */
  lemma RequestOverrunsExample()
    ensures var t := [Data(seq(5, _ => 'a')), Data(seq(128, _ => 'b'))];
      5 <= InitialBufferSize && 128 <= InitialBufferSize && !Fits(t, 0, InitialBufferSize)
  {
    var t := [Data(seq(5, _ => 'a')), Data(seq(128, _ => 'b'))];
    assert t[1..] == [Data(seq(128, _ => 'b'))] + [];
    RequestOverrunsBuffer(5, InitialBufferSize, seq(128, _ => 'b'), []);
  }

  /** Uninitialised memory that holds spaces only. */
  function Blank(k: nat): char { ' ' }

  /**
   * As written: the terminator split over two reads ('4', then '2') is
   * never found.  The first scan walks the whole 128-byte buffer and leaves
   * readIndex at 128; the second read is never scanned; the call returns
   * NULL at EOF although the client sent "42".
   */
  lemma SplitTerminatorMissed()
    ensures var t := [Data(['4']), Data(['2']), Eof];
      Fits(t, 0, InitialBufferSize) &&
      Stream(t) == ['4', '2'] && FirstMatchFrom(Stream(t), 0) == Some(1) &&
      Frame(t, AllOk, Blank) == Disconnected
  {
    var t := [Data(['4']), Data(['2']), Eof];
    assert t[1..] == [Data(['2']), Eof] && t[1..][1..] == [Eof];
    assert Stream(t[1..][1..]) == [];
    assert Stream(t) == ['4', '2'];
    assert MatchAt(['4', '2'], 1);
    var buf := Overwrite(Initial(Blank), 0, ['4']);
    assert forall j :: 0 <= j < |buf| ==> buf[j] != '2';
    assert FirstMatchFrom(buf, 0) == None;
    ExhaustedScanNeverFrames(Scratch(buf, 1, |buf|), t[1..], AllOk, Blank);
  }

  /** Uninitialised memory that happens to hold '4', '2' in cells 1 and 2. */
  function StaleFortyTwo(k: nat): char
  {
    if k == 1 then '4' else if k == 2 then '2' else ' '
  }

  /**
   * As written: the scan also reads cells no read has filled, so stale
   * memory can end a frame.  The client sends only "a" and the call returns
   * "a42" with its NUL.
   */
  lemma StaleMemoryFramed()
    ensures var t := [Data(['a']), Eof];
      Fits(t, 0, InitialBufferSize) &&
      FirstMatchFrom(Stream(t), 0) == None &&
      Frame(t, AllOk, StaleFortyTwo) == Framed(['a', '4', '2', '\0'])
  {
    var t := [Data(['a']), Eof];
    assert t[1..] == [Eof];
    assert Stream(t) == ['a'];
    var buf := Overwrite(Initial(StaleFortyTwo), 0, ['a']);
    assert buf[0] == 'a' && buf[1] == '4' && buf[2] == '2';
    assert MatchAt(buf, 2) && !MatchAt(buf, 0) && !MatchAt(buf, 1);
    assert FirstMatchFrom(buf, 0) == Some(2);
    assert buf[..3] == ['a', '4', '2'];
  }

  // ---------------------------------------------------------------------
  // The corrected framer
  // ---------------------------------------------------------------------

  /**
   * What read(2) guarantees for the corrected request (offset `filled`,
   * count `cap - filled`): a positive count no larger than the free space.
   */
  predicate CorrectedFits(trace: seq<ReadOutcome>, filled: nat, cap: nat)
    decreases |trace|
  {
    trace == [] ||
    match trace[0]
    case Eof => true
    case Err => true
    case Data(b) =>
      0 < |b| && filled + |b| <= cap &&
      CorrectedFits(trace[1..], filled + |b|, if filled + |b| == cap then 2 * cap else cap)
  }

  /**
   * The corrected loop: read at the end of what has been received, into the
   * free space only; scan only received bytes, resuming where the last scan
   * stopped (the boundary pair is still checked, since a match at index k
   * looks at k - 1); grow when the received bytes fill the buffer.
   */
  function CorrectedLoop(got: seq<char>, cap: nat, trace: seq<ReadOutcome>, alloc: Allocator): Outcome
    requires |got| <= cap && CorrectedFits(trace, |got|, cap)
    decreases |trace|
  {
    if trace == [] then Pending
    else match trace[0]
      case Eof => Disconnected
      case Err => ReadFailed
      case Data(b) =>
        var received := got + b;
        match FirstMatchFrom(received, |got|)
        case Some(i) => if alloc.resultOk then Framed(received[..i + 1] + ['\0']) else OutOfMemory
        case None =>
          if |received| < cap then CorrectedLoop(received, cap, trace[1..], alloc)
          else if alloc.reallocOk then CorrectedLoop(received, 2 * cap, trace[1..], alloc)
          else OutOfMemory
  }

  /** The corrected read_until_42. */
  function CorrectedFrame(trace: seq<ReadOutcome>, alloc: Allocator): Outcome
    requires CorrectedFits(trace, 0, InitialBufferSize)
  {
    if !alloc.scratchOk then OutOfMemory else CorrectedLoop([], InitialBufferSize, trace, alloc)
  }

  /** The intended result: the stream up to its first "42", NUL-terminated; else how the trace ends. */
  function Intended(received: seq<char>, trace: seq<ReadOutcome>): Outcome
  {
    var all := received + Stream(trace);
    match FirstMatchFrom(all, 0)
    case Some(i) => Framed(all[..i + 1] + ['\0'])
    case None => Ending(trace)
  }

  /**
   * One data read of the corrected loop, from a state with no terminator in
   * what has been received: the intended result is unchanged by moving the
   * read's bytes from the trace into `got`, and if the scan finds a
   * terminator the loop returns the intended frame.
   */
  lemma CorrectedReadStep(got: seq<char>, trace: seq<ReadOutcome>)
    requires trace != [] && trace[0].Data? && NoMatchBelow(got, |got|)
    ensures var received := got + trace[0].bytes;
      FirstMatchFrom(received, |got|) == FirstMatchFrom(received, 0) &&
      (FirstMatchFrom(received, |got|).None? ==>
        NoMatchBelow(received, |received|) && Intended(got, trace) == Intended(received, trace[1..])) &&
      (FirstMatchFrom(received, |got|).Some? ==>
        var i := FirstMatchFrom(received, |got|).value;
        Intended(got, trace) == Framed(received[..i + 1] + ['\0']))
  {
    var b := trace[0].bytes;
    var received := got + b;
    assert Stream(trace) == b + Stream(trace[1..]);
    assert got + Stream(trace) == received + Stream(trace[1..]);
    forall j | 0 <= j < |got| ensures !MatchAt(received, j) { MatchInPrefix(got, b, j); }
    ScanSkipsClean(received, |got|);
    if FirstMatchFrom(received, |got|).Some? {
      var i := FirstMatchFrom(received, |got|).value;
      FirstMatchPersists(received, Stream(trace[1..]));
      assert (received + Stream(trace[1..]))[..i + 1] == received[..i + 1];
    }
  }

  /** With no terminator in what has been received, the corrected loop returns the intended result. */
  lemma {:induction false} CorrectedLoopIntended(got: seq<char>, cap: nat, trace: seq<ReadOutcome>)
    requires |got| <= cap && CorrectedFits(trace, |got|, cap)
    requires NoMatchBelow(got, |got|)
    ensures CorrectedLoop(got, cap, trace, AllOk) == Intended(got, trace)
    decreases |trace|
  {
    if trace == [] || !trace[0].Data? {
      assert Stream(trace) == [] && got + [] == got;
      assert FirstMatchFrom(got, 0) == None;
    } else {
      var received := got + trace[0].bytes;
      CorrectedReadStep(got, trace);
      if FirstMatchFrom(received, |got|).None? {
        if |received| < cap {
          CorrectedLoopIntended(received, cap, trace[1..]);
        } else {
          CorrectedLoopIntended(received, 2 * cap, trace[1..]);
        }
      }
    }
  }

  /**
   * The corrected framer returns the client's bytes up to and including the
   * first "42" of the stream, whichever reads carried them, followed by the
   * NUL; with no "42" it ends as the trace does.
   */
  lemma CorrectedFrameIntended(trace: seq<ReadOutcome>)
    requires CorrectedFits(trace, 0, InitialBufferSize)
    ensures CorrectedFrame(trace, AllOk) == Intended([], trace)
  {
    CorrectedLoopIntended([], InitialBufferSize, trace);
  }

  /** The split terminator of SplitTerminatorMissed is found by the corrected framer. */
  lemma CorrectedFindsSplitTerminator()
    ensures var t := [Data(['4']), Data(['2']), Eof];
      CorrectedFits(t, 0, InitialBufferSize) && CorrectedFrame(t, AllOk) == Framed(['4', '2', '\0'])
  {
    var t := [Data(['4']), Data(['2']), Eof];
    assert t[1..] == [Data(['2']), Eof] && t[1..][1..] == [Eof];
    CorrectedFrameIntended(t);
    assert Stream(t[1..][1..]) == [];
    assert Stream(t) == ['4', '2'];
    assert MatchAt(['4', '2'], 1) && !MatchAt(['4', '2'], 0);
    assert FirstMatchFrom(['4', '2'], 0) == Some(1);
    assert ([] + Stream(t))[..2] == ['4', '2'];
  }
}
