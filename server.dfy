/**
 * The accept loop of src/m1_2__simple_server.c (accept_client_connection,
 * handle_client, start_single_threaded_server) and the shutdown handler of
 * src/main.c (handle_sigint, install_signal_handlers).
 *
 * Everything outside the server is an oracle: each connection attempt is a
 * `Request` giving accept's result, what the framer returned, whether the
 * script registered a handler and what the engine returned; a signal is an
 * event at a chosen point of the same trace.
 */
module Server {
  import opened Wrappers
  import opened Effects
  import Listener

  datatype Signal = SigInt | SigTerm | SigHup

  /** A signal disposition: the default action (terminate) or handle_sigint. */
  datatype Handler = DefaultAction | HandleSigintHandler

  /** The fields of `struct sigaction` that install_signal_handlers sets. */
  datatype SigAction = SigAction(handler: Handler, mask: set<Signal>, flags: int)

  /** The action install_signal_handlers builds: handle_sigint, empty mask, no flags. */
  const ShutdownAction := SigAction(HandleSigintHandler, {}, 0)

  /** The tag of a JSResult: a string result (owned by the caller) or anything else. */
  datatype EngineResult = JsString(text: seq<char>) | JsOther

  /** One connection attempt, as the outside world answers it. */
  datatype Request = Request(acceptResult: int, frame: Option<seq<char>>, handlerRegistered: bool, result: EngineResult)

  datatype Event = Connect(req: Request) | Deliver(sig: Signal)

  /** How the process ended: exit(status) or killed by a signal's default action. */
  datatype Exit = Status(code: int) | KilledBy(sig: Signal)

  /** How start_single_threaded_server ends. */
  datatype Termination =
    | Returned(code: int)  // the function returned this value
    | Ended                // the process ended inside it (see Globals.exit)
    | Blocked              // the trace ran out: the call is still blocked in accept

  /** The process state the loop and the handler share, and the external calls made so far. */
  datatype Globals = Globals(running: bool, serverFd: int, log: seq<Effect>, exit: Option<Exit>)

  /** accept_client_connection: the new descriptor, or -1 when accept fails. */
  function AcceptClientConnection(acceptResult: int): (fd: int)
    ensures fd == -1 <==> acceptResult == -1
    ensures fd != -1 ==> fd == acceptResult
  {
    if acceptResult == -1 then -1 else acceptResult
  }

  /** client_response: a stub that does nothing. */
  function ClientResponse(fd: int, result: EngineResult, buffer: seq<char>): (effects: seq<Effect>)
    ensures |effects| == 0
  {
    []
  }

  /**
   * handle_client on the accepted descriptor `fd`: without a frame, or
   * without a registered handler, the socket is closed (and a frame freed);
   * otherwise the handler is called once and only its string result is
   * freed, since client_response does nothing.  Nothing is ever written.
   */
  function ClientEffects(fd: int, req: Request): (effects: seq<Effect>)
    ensures Dispatches(effects) == (if req.frame.Some? && req.handlerRegistered then 1 else 0)
    ensures req.frame.Some? && req.handlerRegistered ==> effects[0] == CallHandler(req.frame.value)
    ensures Closes(effects, fd) == (if req.frame.Some? && req.handlerRegistered then 0 else 1)
    ensures FreeRequest in effects <==> req.frame.Some? && !req.handlerRegistered
    ensures FreeResult in effects <==> req.frame.Some? && req.handlerRegistered && req.result.JsString?
    ensures NoWrites(effects)
  {
    match req.frame
    case None => [Close(fd)]
    case Some(buffer) =>
      if !req.handlerRegistered then [FreeRequest, Close(fd)]
      else
        var effects := [CallHandler(buffer)] + ClientResponse(fd, req.result, buffer)
          + (if req.result.JsString? then [FreeResult] else []);
        assert effects[1..] == (if req.result.JsString? then [FreeResult] else []);
        effects
  }

  /** handle_sigint: clear the running flag, close the listening descriptor once, exit(0). */
  function Sigint(g: Globals): (h: Globals)
    ensures !h.running && h.serverFd == -1 && h.exit == Some(Status(0))
    ensures g.serverFd == -1 ==> h.log == g.log
    ensures g.serverFd != -1 ==> h.log == g.log + [Close(g.serverFd)]
  {
    var log := if g.serverFd != -1 then g.log + [Close(g.serverFd)] else g.log;
    Globals(false, -1, log, Some(Status(0)))
  }

  /**
   * Applying the handler a second time changes nothing, so the listening
   * descriptor is closed at most once, whatever the state before.
   */
  lemma SigintClosesOnce(g: Globals)
    ensures Sigint(Sigint(g)) == Sigint(g)
    ensures Closes(Sigint(Sigint(g)).log, g.serverFd) <= Closes(g.log, g.serverFd) + 1
    ensures g.serverFd != -1 ==> Closes(Sigint(g).log, g.serverFd) == Closes(g.log, g.serverFd) + 1
  {
    if g.serverFd != -1 {
      CountsAppend(g.log, [Close(g.serverFd)], g.serverFd);
    }
  }

  /** The dispositions after install_signal_handlers. */
  function Installed(handlers: map<Signal, SigAction>): (h: map<Signal, SigAction>)
    ensures forall sig: Signal :: sig in h && h[sig] == ShutdownAction
  {
    var h := handlers[SigInt := ShutdownAction][SigTerm := ShutdownAction][SigHup := ShutdownAction];
    EverySignalMapped(h);
    h
  }

  /** A map that sends SIGINT, SIGTERM and SIGHUP to the shutdown action covers every signal. */
  lemma EverySignalMapped(h: map<Signal, SigAction>)
    requires SigInt in h && SigTerm in h && SigHup in h
    requires h[SigInt] == ShutdownAction && h[SigTerm] == ShutdownAction && h[SigHup] == ShutdownAction
    ensures forall sig: Signal :: sig in h && h[sig] == ShutdownAction
  {
    forall sig: Signal ensures sig in h && h[sig] == ShutdownAction {
      match sig {
        case SigInt =>
        case SigTerm =>
        case SigHup =>
      }
    }
  }

  /** Delivering `sig`: run its handler, or terminate by the default action. */
  function DeliverSignal(handlers: map<Signal, SigAction>, sig: Signal, g: Globals): (h: Globals)
    ensures h.exit.Some? && g.log <= h.log
    ensures sig in handlers && handlers[sig].handler == HandleSigintHandler ==> h == Sigint(g)
    ensures !(sig in handlers && handlers[sig].handler == HandleSigintHandler) ==> h.log == g.log && h.exit == Some(KilledBy(sig))
  {
    if sig in handlers && handlers[sig].handler == HandleSigintHandler then Sigint(g)
    else g.(exit := Some(KilledBy(sig)))
  }

  /** Once installed, SIGINT, SIGTERM and SIGHUP all produce the same transition, handle_sigint's. */
  lemma InstalledSignalsShutDown(handlers: map<Signal, SigAction>, sig: Signal, g: Globals)
    ensures DeliverSignal(Installed(handlers), sig, g) == Sigint(g)
    ensures Installed(handlers).Keys == handlers.Keys + {SigInt, SigTerm, SigHup}
  {
  }

  /**
   * One iteration of the accept loop on descriptor `listenFd`, for the next
   * event: a signal runs its disposition; a connection attempt is accepted
   * and, if accept succeeded, handled to completion.
   */
  function AfterEvent(handlers: map<Signal, SigAction>, listenFd: int, g: Globals, ev: Event): (h: Globals)
    ensures ev.Connect? ==> h == g.(log := g.log + ConnectEffects(listenFd, AcceptClientConnection(ev.req.acceptResult), ev.req))
    ensures ev.Deliver? ==> h.exit.Some?
    ensures g.log <= h.log
  {
    match ev
    case Deliver(sig) => DeliverSignal(handlers, sig, g)
    case Connect(req) => g.(log := g.log + ConnectEffects(listenFd, AcceptClientConnection(req.acceptResult), req))
  }

  /**
   * The remaining iterations of the accept loop while the running flag is
   * set and the process is alive.  (The loop's early exit when accept fails
   * with the flag cleared ends in the same state: the flag stops it anyway.)
   */
  function Serve(handlers: map<Signal, SigAction>, listenFd: int, g: Globals, events: seq<Event>): (h: Globals)
    decreases |events|
    ensures !g.running || g.exit.Some? ==> h == g
    ensures g.log <= h.log
  {
    if !g.running || g.exit.Some? || events == [] then g
    else Serve(handlers, listenFd, AfterEvent(handlers, listenFd, g, events[0]), events[1..])
  }

  /** One iteration for a connection attempt: accept, then handle_client only if accept succeeded. */
  function ConnectEffects(listenFd: int, fd: int, req: Request): (effects: seq<Effect>)
    ensures effects != [] && effects[0] == Accept(listenFd)
    ensures fd < 0 ==> effects == [Accept(listenFd)]
    ensures fd >= 0 ==> effects == [Accept(listenFd)] + ClientEffects(fd, req)
    ensures Dispatches(effects) == (if fd >= 0 && req.frame.Some? && req.handlerRegistered then 1 else 0)
    ensures NoWrites(effects)
  {
    var effects := [Accept(listenFd)] + (if fd < 0 then [] else ClientEffects(fd, req));
    CountsAppend([Accept(listenFd)], if fd < 0 then [] else ClientEffects(fd, req), 0);
    NoWritesAppend([Accept(listenFd)], if fd < 0 then [] else ClientEffects(fd, req));
    effects
  }

  /** The number of connections that reach the script handler before the first signal. */
  function Dispatched(events: seq<Event>): nat
  {
    if events == [] || events[0].Deliver? then 0
    else
      var req := events[0].req;
      (if req.acceptResult >= 0 && req.frame.Some? && req.handlerRegistered then 1 else 0) + Dispatched(events[1..])
  }

  /** Some signal is delivered in `events`. */
  predicate SignalIn(events: seq<Event>)
  {
    exists k :: 0 <= k < |events| && events[k].Deliver?
  }

  /** A connection attempt at the head of the trace is not a signal. */
  lemma SignalInTail(events: seq<Event>)
    requires events != [] && events[0].Connect?
    ensures SignalIn(events) <==> SignalIn(events[1..])
  {
    if SignalIn(events) {
      var k :| 0 <= k < |events| && events[k].Deliver?;
      assert events[1..][k - 1] == events[k];
    }
    if SignalIn(events[1..]) {
      var k :| 0 <= k < |events[1..]| && events[1..][k].Deliver?;
      assert events[k + 1] == events[1..][k];
    }
  }

  /**
   * The loop only stops because a signal ended the process: it never leaves
   * with the running flag cleared and the process alive, so "Server
   * stopped." and `return 0` are never reached.
   */
  lemma {:induction false} ServeEndsOnlyBySignal(handlers: map<Signal, SigAction>, listenFd: int, g: Globals, events: seq<Event>)
    requires g.running && g.exit.None?
    ensures var h := Serve(handlers, listenFd, g, events);
      (h.exit.Some? <==> SignalIn(events)) && (h.exit.None? ==> h.running)
    decreases |events|
  {
    if events != [] && events[0].Connect? {
      SignalInTail(events);
      ServeEndsOnlyBySignal(handlers, listenFd, AfterEvent(handlers, listenFd, g, events[0]), events[1..]);
    }
  }

  /** A log without writes stays so when effects without writes are appended. */
  lemma NoWritesAppend(a: seq<Effect>, b: seq<Effect>)
    requires NoWrites(a) && NoWrites(b)
    ensures NoWrites(a + b)
  {
    forall k | 0 <= k < |a + b| ensures !(a + b)[k].Write? {
      if k >= |a| { assert (a + b)[k] == b[k - |a|]; }
    }
  }

  /**
   * The handler is called once per accepted connection that carries a frame
   * and finds a handler registered, before the first signal, and never for a
   * failed accept; no byte is ever written.
   */
  lemma {:induction false} ServeDispatches(handlers: map<Signal, SigAction>, listenFd: int, g: Globals, events: seq<Event>)
    requires g.running && g.exit.None?
    ensures var h := Serve(handlers, listenFd, g, events);
      Dispatches(h.log) == Dispatches(g.log) + Dispatched(events) &&
      (NoWrites(g.log) ==> NoWrites(h.log))
    decreases |events|
  {
    if events != [] {
      var h := AfterEvent(handlers, listenFd, g, events[0]);
      EventDispatches(handlers, listenFd, g, events[0]);
      if events[0].Connect? {
        ServeDispatches(handlers, listenFd, h, events[1..]);
      }
    }
  }

  /** One iteration calls the handler at most once, exactly when a connection is accepted with a frame and a handler, and writes nothing. */
  lemma EventDispatches(handlers: map<Signal, SigAction>, listenFd: int, g: Globals, ev: Event)
    ensures var h := AfterEvent(handlers, listenFd, g, ev);
      Dispatches(h.log) == Dispatches(g.log) +
        (if ev.Connect? && ev.req.acceptResult >= 0 && ev.req.frame.Some? && ev.req.handlerRegistered then 1 else 0) &&
      (NoWrites(g.log) ==> NoWrites(h.log))
  {
    var effects := match ev
      case Deliver(sig) => if sig in handlers && handlers[sig].handler == HandleSigintHandler && g.serverFd != -1 then [Close(g.serverFd)] else []
      case Connect(req) => ConnectEffects(listenFd, AcceptClientConnection(req.acceptResult), req);
    assert AfterEvent(handlers, listenFd, g, ev).log == g.log + effects;
    CountsAppend(g.log, effects, 0);
    if NoWrites(g.log) { NoWritesAppend(g.log, effects); }
  }

  /** The process-wide state: globals of main.c and the server, and the calls made. */
  class Process {
    var serverRunning: bool
    var serverFdGlobal: int
    var handlers: map<Signal, SigAction>
    var log: seq<Effect>
    var exit: Option<Exit>

    /** The state as the specification functions see it. */
    function State(): Globals
      reads this
    {
      Globals(serverRunning, serverFdGlobal, log, exit)
    }

    /** The process at start: the two globals with their initial values, default dispositions. */
    constructor (running: bool, fd: int)
      ensures serverRunning == running && serverFdGlobal == fd
      ensures handlers == map[] && log == [] && exit == None
    {
      serverRunning, serverFdGlobal := running, fd;
      handlers, log, exit := map[], [], None;
    }

    /** install_signal_handlers: SIGINT, SIGTERM and SIGHUP all get handle_sigint. */
    method InstallSignalHandlers()
      modifies this`handlers
      ensures handlers == Installed(old(handlers))
    {
      var sa := SigAction(HandleSigintHandler, {}, 0);
      handlers := handlers[SigInt := sa];
      handlers := handlers[SigTerm := sa];
      handlers := handlers[SigHup := sa];
    }

    /** handle_sigint. */
    method HandleSigint()
      modifies this`serverRunning, this`serverFdGlobal, this`log, this`exit
      ensures State() == Sigint(old(State()))
    {
      serverRunning := false;
      if serverFdGlobal != -1 {
        log := log + [Close(serverFdGlobal)];
        serverFdGlobal := -1;
      }
      exit := Some(Status(0));
    }

    /** handle_client, given what the outside world answers. */
    method HandleClient(fd: int, req: Request)
      modifies this`log
      ensures log == old(log) + ClientEffects(fd, req)
    {
      match req.frame {
        case None =>
          log := log + [Close(fd)];
        case Some(buffer) =>
          if !req.handlerRegistered {
            log := log + [FreeRequest, Close(fd)];
          } else {
            log := log + [CallHandler(buffer)];
            log := log + ClientResponse(fd, req.result, buffer);
            if req.result.JsString? {
              log := log + [FreeResult];
            }
          }
      }
    }

    /**
     * One iteration of the accept loop for event `ev`; `stop` is the loop's
     * early exit, taken when accept failed and the running flag is clear.
     */
    method HandleEvent(serverFd: int, ev: Event) returns (stop: bool)
      modifies this`serverRunning, this`serverFdGlobal, this`log, this`exit
      ensures State() == AfterEvent(handlers, serverFd, old(State()), ev)
      ensures stop ==> !serverRunning
    {
      stop := false;
      match ev {
        case Deliver(sig) =>
          if sig in handlers && handlers[sig].handler == HandleSigintHandler {
            HandleSigint();
          } else {
            exit := Some(KilledBy(sig));
          }
        case Connect(req) =>
          ghost var before := log;
          log := log + [Accept(serverFd)];
          var newSocket := AcceptClientConnection(req.acceptResult);
          if newSocket < 0 {
            stop := !serverRunning;
          } else {
            HandleClient(newSocket, req);
          }
          assert log == before + ConnectEffects(serverFd, newSocket, req);
      }
    }

    /**
     * The `while (server_running)` loop of start_single_threaded_server on
     * the listening descriptor `serverFd`: the state becomes `Serve` of the
     * events, and the loop never leaves with the process alive.
     */
    method AcceptLoop(serverFd: int, events: seq<Event>) returns (ret: Termination)
      modifies this`serverRunning, this`serverFdGlobal, this`log, this`exit
      ensures State() == Serve(handlers, serverFd, old(State()), events)
      ensures ret == (if exit.Some? then Ended else if serverRunning then Blocked else Returned(0))
      ensures old(serverRunning) && old(exit).None? ==> ret != Returned(0)
    {
      ghost var start := State();
      if serverRunning && exit.None? {
        ServeEndsOnlyBySignal(handlers, serverFd, start, events);
      }
      var pos := 0;
      while serverRunning && exit.None? && pos < |events|
        invariant pos <= |events|
        invariant Serve(handlers, serverFd, State(), events[pos..]) == Serve(handlers, serverFd, start, events)
        decreases |events| - pos
      {
        assert events[pos..][0] == events[pos] && events[pos..][1..] == events[pos + 1..];
        var stop := HandleEvent(serverFd, events[pos]);
        if stop {
          break;
        }
        pos := pos + 1;
      }
      assert Serve(handlers, serverFd, State(), events[pos..]) == State();
      if exit.Some? {
        return Ended;
      }
      if serverRunning {
        return Blocked;
      }
      ret := Returned(0);
    }

    /**
     * start_single_threaded_server: create the listener, publish its
     * descriptor in server_fd_global, return 1 if that failed, else run the
     * accept loop over `events`.
     */
    method StartSingleThreadedServer(port: int, os: Listener.ListenerCalls, events: seq<Event>) returns (ret: Termination)
      requires os.socket >= -1
      modifies this`serverRunning, this`serverFdGlobal, this`log, this`exit
      ensures !Listener.Succeeds(os) ==> ret == Returned(1) && serverFdGlobal == -1 && exit == old(exit)
      ensures !Listener.Succeeds(os) ==> serverRunning == old(serverRunning) && log == old(log) + Listener.CallLog(port, os)
      ensures !Listener.Succeeds(os) ==>
        Closes(log, os.socket) == Closes(old(log), os.socket) + (if os.socket != -1 then 1 else 0)
      ensures Listener.Succeeds(os) ==>
        State() == Serve(handlers, os.socket,
          Globals(old(serverRunning), os.socket, old(log) + Listener.SuccessLog(os.socket, port), old(exit)),
          events)
      ensures Listener.Succeeds(os) ==>
        ret == (if exit.Some? then Ended else if serverRunning then Blocked else Returned(0))
      ensures old(serverRunning) && old(exit).None? ==> ret != Returned(0)
    {
      var serverFd, listenLog := Listener.CreateAndBindSocket(port, os);
      ghost var before := log;
      log := log + listenLog;
      serverFdGlobal := serverFd;
      if serverFd < 0 {
        CountsAppend(before, listenLog, os.socket);
        return Returned(1);
      }
      assert State() == Globals(serverRunning, os.socket, before + Listener.SuccessLog(os.socket, port), exit);
      ret := AcceptLoop(serverFd, events);
    }
  }
}
