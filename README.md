# A verified model of a single-threaded "42"-framed TCP server

The server accepts one TCP connection at a time, reads the request up to
the two-byte terminator `42` (`read_until_42`), hands the framed bytes to
the JavaScript handler registered in the V8 engine, and loops until a
signal (SIGINT, SIGTERM or SIGHUP) clears `server_running`, closes the
listening socket and exits the process.

The model follows the C code as written, not its doc comments:

- `framer.dfy` (module `Framer`): `read_until_42`. The socket is a finite
  trace of read outcomes. Uninitialised memory from malloc and realloc is a
  total function `junk` from cell index to byte. `Loop`/`Frame` give the
  function's result as a function of that input. The class `FrameReader`
  holds the C locals (`readBuffer` as an array, `bufferSize`, `bytesRead`,
  `readIndex`). Its method `ReadUntil42` reads, scans, copies and reallocs
  step by step, and is proved to return `Frame`. Each read stores its bytes
  at offset `bytesRead`, the count of the previous read, and requests
  `bufferSize` bytes. The scan runs over the whole capacity, unfilled cells
  included. `readIndex` is never reset, and the buffer doubles only after
  a read that returned exactly `bufferSize`.
- `framer_findings.dfy` (module `FramerFindings`): concrete inputs on
  which the framer departs from "the bytes up to the first `42`". It also
  holds a corrected framer, proved to return exactly those bytes.
- `listener.dfy` (module `Listener`): `create_and_bind_socket`, including
  its shared failure exit and the `(u16)` cast of the port.
- `server.dfy` (module `Server`): `accept_client_connection`,
  `handle_client`, the accept loop of `start_single_threaded_server`,
  `handle_sigint` and `install_signal_handlers`. Each connection attempt
  is an event that carries accept's result, the framer's result (a buffer
  or NULL), whether a handler is registered, and the engine's result tag.
  A signal is an event at a chosen point of the same trace.
- `effects.dfy` (module `Effects`): the external calls (socket calls,
  frees, engine calls, writes) recorded in order, and counts over them.
- `wrappers.dfy`: `Option`.

`client_response` is an empty stub. On the success path `handle_client`
therefore writes nothing and closes nothing. It frees only the engine's
string result; the request buffer is not freed. The model states exactly
this (`Server.ClientEffects`).

The read oracle must satisfy `Framer.Fits`. Every data read before the
first EOF or error returns a positive count no larger than the `bufferSize`
requested. The bytes it stores at offset `bytesRead` must also stay inside
the buffer. Reads after the call has ended do not change its result
(`Framer.DecidedByPrefix`), so a trace can be cut short there.
The C code does not guarantee the second condition (see Findings). With
this requirement the buffer grows at most once, so a frame is at most 257
bytes with its NUL (`Framer.FramedAtMostTwoBuffers`).

## Model

| member | source | states |
|---|---|---|
| `Framer.Frame` | src/m1_2__simple_server.c:160-246 | the result of read_until_42 on a read trace: NULL for lack of memory when the scratch malloc fails, otherwise the loop's result; blocked only if every read delivered data, disconnected or failed only if some read did not |
| `Framer.Loop` | src/m1_2__simple_server.c:180-237 | the remaining iterations of the outer loop from a given local state: EOF and read errors end it, a data read takes one `ReadStep`; it stays blocked only if every read delivered data |
| `Framer.FirstMatchFrom` | src/m1_2__simple_server.c:196-224 | the ascending scan from `readIndex` returns the first index i with i >= 1, buf[i-1] == '4' and buf[i] == '2'; no index before it matches; None exactly when no index from the start to the end of the capacity matches |
| `Framer.Overwrite` | src/m1_2__simple_server.c:181 | a read stores its bytes at the given offset and leaves every other cell unchanged; the capacity is unchanged |
| `Framer.Grown` | src/m1_2__simple_server.c:228-235 | realloc doubles the capacity, keeps the old contents as a prefix and leaves the new cells uninitialised |
| `Framer.Ending` | src/m1_2__simple_server.c:183-192 | with no frame, the call ends at the first read that is not data: disconnected exactly when that read is EOF, failed exactly when it is an error, and blocked exactly when every read delivered data |
| `Framer.Decide` | src/m1_2__simple_server.c:199-236 | after the scan: a returned frame ends in '4', '2', NUL and only when the result malloc succeeded; with no match the loop goes on with `readIndex` at the capacity, which doubles exactly when the last read filled the buffer; otherwise the call fails for lack of memory |
| `Framer.ReadStep` | src/m1_2__simple_server.c:181-236 | one iteration after a read of data: the same guarantees, with the read's count as the next offset |
| `Framer.FramedEndsWithTerminator` | src/m1_2__simple_server.c:196-217 | a returned buffer has at least 3 bytes and ends in '4', '2', NUL; it is returned only if the result malloc succeeded; NULL for lack of memory only when an allocation failed |
| `Framer.NoGrowthAfterFirstRead` | src/m1_2__simple_server.c:181-229 | once a read has stored n > 0 bytes, no later read can return the full `bufferSize`, so the buffer never doubles again |
| `Framer.ExhaustedScanNeverFrames` | src/m1_2__simple_server.c:196-224 | once `readIndex` has reached `bufferSize` after a read of n > 0 bytes, it is never reset, so no later read is scanned; the call ends as the trace does (EOF, error or blocked) |
| `Framer.DecidedByPrefix` | src/m1_2__simple_server.c:180-237 | if the reads of a prefix of the trace end the call, the later reads do not change the result |
| `Framer.LaterReadsNeverScanned` | src/m1_2__simple_server.c:167-237 | only the first two reads are ever scanned: after them the call either has its result or ends at the next EOF or error without a frame |
| `Framer.BoundAfterFirstRead` | src/m1_2__simple_server.c:202-215 | after a read has stored data, a frame is at most the current capacity plus the NUL |
| `Framer.FramedAtMostTwoBuffers` | src/m1_2__simple_server.c:168-235 | a returned frame is at most 2 * 128 + 1 bytes |
| `Framer.FirstReadFrames` | src/m1_2__simple_server.c:181-219 | when the first read holds a "42", with the two mallocs succeeding, the result is that read's bytes up to and including its first "42", then NUL, whatever the uninitialised memory holds |
| `Framer.FramesAcrossGrowth` | src/m1_2__simple_server.c:181-236 | when a first read fills the 128 bytes without a "42" and a second read completes one (possibly straddling the two reads), the buffer doubles and the result is the bytes of both reads up to and including their first "42", then NUL |
| `Framer.FrameReader.Receive` | src/m1_2__simple_server.c:181 | the array holds the read's bytes at offset `bytesRead`, every other cell unchanged |
| `Framer.FrameReader.Scan` | src/m1_2__simple_server.c:196-224 | `readIndex` never decreases and never passes `bufferSize`; it stops at the first match at or after its old value, else ends at `bufferSize`; index -1 is never read |
| `Framer.FrameReader.CopyFrame` | src/m1_2__simple_server.c:202-217 | the new result has exactly i + 2 bytes: bytes 0..i of the scratch buffer, then NUL |
| `Framer.FrameReader.Realloc` | src/m1_2__simple_server.c:228-235 | the new buffer is fresh, twice as large, and holds the old contents as its prefix |
| `Framer.FrameReader.Settle` | src/m1_2__simple_server.c:199-236 | the result (or, with None, the continuing state) is `Decide` of the scanned buffer: the frame copy when the scan matched, else growth only after a read that filled the buffer; a result is allocated exactly when a frame is returned |
| `Framer.FrameReader.ReadData` | src/m1_2__simple_server.c:181-236 | after a read of data, the result, or with None the continuing state, is `ReadStep` of the old state |
| `Framer.FrameReader.Step` | src/m1_2__simple_server.c:180-237 | one outer iteration either ends the call with the remaining loop's specified result (never `Pending`), or returns None, keeps the loop invariant (capacity 128 * 2^k, `readIndex` <= capacity, reads still fit) and leaves the specified result unchanged |
| `Framer.FrameReader.ReadUntil42` | src/m1_2__simple_server.c:160-246 | returns `Frame` of the trace: NULL on EOF, read error or any allocation failure; the scratch buffer is freed exactly when it was allocated and the call ended; a result is allocated exactly when a frame is returned |
| `FramerFindings.RequestOverrunsBuffer` | src/m1_2__simple_server.c:181 | whenever the previous count off is positive, the request [off, off + size) reaches past the size-byte buffer, and any read returning more than size - off bytes (within the count requested) violates the fit requirement |
| `FramerFindings.RequestOverrunsExample` | src/m1_2__simple_server.c:181 | a 5-byte read, then a 128-byte read, both within the counts requested, violate the fit requirement of the 128-byte buffer |
| `FramerFindings.SplitTerminatorMissed` | src/m1_2__simple_server.c:169-224 | reads "4", "2", then EOF, with uninitialised memory that holds no '2' in cell 1 (blank here): the stream holds "42" but the call returns NULL |
| `FramerFindings.StaleMemoryFramed` | src/m1_2__simple_server.c:196-199 | the client sends only "a"; stale '4','2' in unfilled cells make the call return "a42" |
| `FramerFindings.CorrectedLoopIntended` | src/m1_2__simple_server.c:180-237 | the corrected loop, from received bytes without a terminator, returns the bytes of the whole stream up to the first "42" plus NUL, else ends as the trace does |
| `FramerFindings.CorrectedFrameIntended` | src/m1_2__simple_server.c:160-246 | the corrected framer returns the stream up to and including its first "42", NUL-terminated, whichever reads carried it |
| `FramerFindings.CorrectedFindsSplitTerminator` | src/m1_2__simple_server.c:196-224 | the corrected framer returns "42" plus NUL on the reads "4", "2", EOF |
| `Listener.Port16` | src/m1_2__simple_server.c:98 | the port is taken modulo 2^16; ports already in range are unchanged |
| `Listener.SuccessLog` | src/m1_2__simple_server.c:79-119 | on success the calls are socket, then setsockopt, bind and listen on the new descriptor, four in all, with no close; bind uses the 16-bit port |
| `Listener.CallLog` | src/m1_2__simple_server.c:75-130 | the calls are socket, setsockopt, bind, listen up to and including the first that fails (`CallsMade`); on failure after socket succeeded, close of the descriptor follows; nothing else |
| `Listener.CallsMade` | src/m1_2__simple_server.c:80-115 | one call when socket fails, two when setsockopt fails, three when bind fails, four exactly when socket, setsockopt and bind succeed, whether listen then succeeds or fails |
| `Listener.CreateAndBindSocket` | src/m1_2__simple_server.c:75-130 | its calls are exactly `CallLog`: no call follows the first failure but the close; returns the socket's descriptor iff socket, setsockopt, bind and listen all succeed, else -1; on failure it closes the descriptor exactly once if socket succeeded, never otherwise, and as the last call; bind uses the 16-bit port, listen a backlog of 1 |
| `Listener.FailureLog` | src/m1_2__simple_server.c:124-129 | on the failure exit, after two to four calls, the descriptor is closed exactly once, as the last call, and bind used the 16-bit port |
| `Server.AcceptClientConnection` | src/m1_2__simple_server.c:358-374 | -1 exactly when accept fails, otherwise accept's descriptor |
| `Server.ClientResponse` | src/m1_2__simple_server.c:275-281 | the response stub makes no call at all: nothing is written, freed or closed |
| `Server.ClientEffects` | src/m1_2__simple_server.c:301-324 | the handler is called, with the framed buffer, exactly when framing returned a buffer and a handler is registered; otherwise the socket is closed once; the buffer is freed only on the no-handler path; only a string result is freed; nothing is written |
| `Server.ConnectEffects` | src/m1_2__simple_server.c:401-408 | every attempt is accept followed by exactly handle_client's calls when accept succeeded, and by nothing when it failed; the handler is called at most once; nothing is written |
| `Server.Sigint` | src/main.c:56-66 | `server_running` becomes 0; the listening descriptor is closed only when it is not -1; afterwards it is -1; the process exits with status 0 |
| `Server.SigintClosesOnce` | src/main.c:60-63 | applying the handler twice equals applying it once, so the listening descriptor is closed at most once |
| `Server.Installed` | src/main.c:87-96 | after installation every signal the model knows (SIGINT, SIGTERM, SIGHUP) has handle_sigint as its disposition, with an empty mask and no flags |
| `Server.DeliverSignal` | src/main.c:56-66 | a delivered signal always ends the process and only appends to the record of calls; with handle_sigint installed the transition is `Sigint`, otherwise the default action kills the process and nothing is closed |
| `Server.InstalledSignalsShutDown` | src/main.c:87-96 | after installation SIGINT, SIGTERM and SIGHUP all lead to the same transition, handle_sigint's |
| `Server.AfterEvent` | src/m1_2__simple_server.c:401-408 | a delivered signal always ends the process; a connection attempt only appends accept's and handle_client's calls, leaving the flag, the descriptor and the exit unchanged |
| `Server.EventDispatches` | src/m1_2__simple_server.c:401-408 | one iteration calls the handler once exactly for an accepted connection with a frame and a registered handler, else never, and writes nothing |
| `Server.Serve` | src/m1_2__simple_server.c:401-411 | the accept loop over the events: with the flag clear or the process ended it changes nothing; the record of calls is only ever extended |
| `Server.ServeEndsOnlyBySignal` | src/m1_2__simple_server.c:401-411 | the loop ends the process exactly when a signal arrives; it never leaves with the flag cleared and the process alive, so "Server stopped." and `return 0` are unreachable |
| `Server.ServeDispatches` | src/m1_2__simple_server.c:401-409 | the handler is called once per accepted connection with a frame and a registered handler, before the first signal; no bytes are written |
| `Server.Process.InstallSignalHandlers` | src/main.c:87-96 | SIGINT, SIGTERM and SIGHUP get handle_sigint with an empty mask and no flags |
| `Server.Process.HandleSigint` | src/main.c:56-66 | the shared state after the handler is `Sigint` of the state before |
| `Server.Process.HandleClient` | src/m1_2__simple_server.c:301-324 | appends exactly `ClientEffects` to the record of external calls |
| `Server.Process.HandleEvent` | src/m1_2__simple_server.c:401-408 | the new state is `AfterEvent` of the old one; the early exit is taken only with the running flag cleared |
| `Server.Process.AcceptLoop` | src/m1_2__simple_server.c:401-411 | the state after the loop is `Serve` of the events; it returns 0 only if the flag was already clear or the process already ended on entry |
| `Server.Process.StartSingleThreadedServer` | src/m1_2__simple_server.c:395-412 | publishes the listener's result in `server_fd_global`; returns 1 iff the listener failed, and then the record has gained exactly the listener's calls (`CallLog`, with one close of a created descriptor) and the running flag is unchanged; otherwise the state is `Serve` of the events, and 0 is never returned when the loop starts running |

## Left out

- The record of calls (`Effects.Effect`) holds the server's socket, setsockopt, bind, listen, accept and close calls, the call into the script handler, handle_client's two frees (request buffer and string result) and writes. read(2), malloc, realloc and the framer's free are not in it: the reads are an input trace, the allocations' outcomes are the flags of `Framer.Allocator`, and the framer's own allocations and free are the booleans `scratchAllocated`, `scratchFreed` and `resultAllocated` of `Framer.FrameReader`.
- The V8 engine calls are opaque. They are represented by a handler-registered flag and a result tag (string or other).
- `main` is not modelled: the argument check, script loading and V8 start-up and clean-up.
- `start_server` is declared in include/utils.h; its body is not part of this model. It is assumed to be the caller of `start_single_threaded_server`.
- The initial values of `server_running` and `server_fd_global` are defined outside the files modelled. `Server.Process.constructor` takes them as parameters.
- Signal delivery is asynchronous in the process. Here a signal is an event at a chosen point of the trace, and it ends the process (exit(0), or the default action if no handler is installed).
- `Server.SigintClosesOnce`: nested delivery is not modelled. install_signal_handlers leaves the mask empty and the flags 0, so a SIGTERM or SIGHUP can interrupt handle_sigint between close and `server_fd_global = -1` and close the descriptor a second time. "Closed at most once" holds only for signals handled one after another.
- A connection whose framer stays blocked in read (a client that never sends "42" and never closes) has no event of its own: every accepted connection in the trace completes handle_client. Such a client stalls the loop forever. The model shows this only by ending the event trace before that connection, which also leaves its accept out of the record.
- Telemetry counters are declared in include/utils.h, but nothing in the modelled code calls them. No counter update is modelled.
- `client_response` is an empty stub, so there is no write, free or close of the response path to model. `out_len` is never written by `read_until_42`, although its comment says it is.
- Debug output (`perror`, `fprintf`, `dprint`, `printf`) and the `memset(ret, 99, ...)` fill are left out. The memcpy and the NUL overwrite every filled byte of the result.
- A finite trace stands for blocking calls. When the reads run out the framer's result is `Pending`; when the events run out the loop's result is `Blocked`. The C would wait in read or accept.
- `Framer.FrameReader.ReadUntil42`: one `reallocOk` flag answers every realloc. Under the fit requirement at most one realloc happens, so nothing is lost.
- `Framer.FrameReader.ReadUntil42`: the oracle must satisfy `Framer.Fits` for every read in the trace. The C code does not ensure that a read stays inside the buffer, so that case (undefined behaviour in C) is excluded rather than modelled.
- Uninitialised memory is `junk(k)` for cell k. Each index is freshly allocated at most once in one call, so this covers arbitrary contents.

## Findings

The server takes the framer's result as an input event, so it does not depend on which framer version is used.

| source | as written | input that shows it | evidently intended | confidence | as-written member | corrected member |
|---|---|---|---|---|---|---|
| src/m1_2__simple_server.c:181 | each read goes to offset `bytesRead` (the previous read's count) and asks for `bufferSize` bytes | a 5-byte read, then a 128-byte read into the 128-byte buffer: bytes 5..132 are written | read at the running total and ask only for the free space | high, not executed | `FramerFindings.RequestOverrunsBuffer` | `FramerFindings.CorrectedFrameIntended` |
| src/m1_2__simple_server.c:169-224 | `readIndex` is never reset and the first scan runs to the end of the capacity, so a later read is never scanned unless the buffer grew | reads "4", "2", then EOF, with uninitialised memory that holds no '2' in cell 1 (e.g. blank): NULL is returned although the client sent "42" | a terminator split across reads is found | high, not executed | `FramerFindings.SplitTerminatorMissed` | `FramerFindings.CorrectedFindsSplitTerminator` |
| src/m1_2__simple_server.c:196-199 | the scan covers cells no read has filled | the client sends "a" then EOF, and the fresh buffer holds '4','2' in cells 1 and 2: "a42" is returned | only received bytes are scanned | high, not executed | `FramerFindings.StaleMemoryFramed` | `FramerFindings.CorrectedFrameIntended` |
