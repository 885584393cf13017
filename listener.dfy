/**
 * create_and_bind_socket of src/m1_2__simple_server.c: socket, setsockopt,
 * bind and listen, with one shared failure exit that closes the descriptor.
 */
module Listener {
  import opened Effects

  /** The listen(2) backlog. */
  const Backlog := 1

  /** What each of the four system calls returns; -1 is failure. */
  datatype ListenerCalls = ListenerCalls(socket: int, setsockopt: int, bind: int, listen: int)

  /** All four calls succeed. */
  predicate Succeeds(os: ListenerCalls)
  {
    os.socket != -1 && os.setsockopt != -1 && os.bind != -1 && os.listen != -1
  }

  /** The calls made when all four succeed. */
  function SuccessLog(fd: int, port: int): (log: seq<Effect>)
    ensures |log| == 4 && log[0] == Socket
    ensures forall k :: 1 <= k < |log| ==> (log[k].SetReuseAddr? || log[k].Bind? || log[k].Listen?) && log[k].fd == fd
    ensures Close(fd) !in log && Bind(fd, Port16(port)) in log
  {
    [Socket, SetReuseAddr(fd), Bind(fd, Port16(port)), Listen(fd, Backlog)]
  }

  /** How many of the four calls are made: up to and including the first that fails. */
  function CallsMade(os: ListenerCalls): (n: nat)
    ensures 1 <= n <= 4
    ensures n == 1 <==> os.socket == -1
    ensures os.socket != -1 && os.setsockopt == -1 ==> n == 2
    ensures os.socket != -1 && os.setsockopt != -1 && os.bind == -1 ==> n == 3
    ensures n == 4 <==> os.socket != -1 && os.setsockopt != -1 && os.bind != -1
  {
    if os.socket == -1 then 1
    else if os.setsockopt == -1 then 2
    else if os.bind == -1 then 3
    else 4
  }

  /**
   * The calls create_and_bind_socket makes: the four calls up to the first
   * failure, then, on the failure exit, close of the descriptor if socket()
   * had succeeded.
   */
  function CallLog(port: int, os: ListenerCalls): seq<Effect>
  {
    if Succeeds(os) || os.socket == -1 then SuccessLog(os.socket, port)[..CallsMade(os)]
    else SuccessLog(os.socket, port)[..CallsMade(os)] + [Close(os.socket)]
  }

  /** The C cast `(u16)port`: the port modulo 2^16. */
  function Port16(port: int): (p: int)
    ensures 0 <= p < 0x1_0000
    ensures 0 <= port < 0x1_0000 ==> p == port
    ensures (port - p) % 0x1_0000 == 0
  {
    port % 0x1_0000
  }

  /**
   * create_and_bind_socket: the listening descriptor if all four calls
   * succeed, else -1; the failure exit closes the descriptor once when
   * socket() had succeeded, and never otherwise.
   */
  method CreateAndBindSocket(port: int, os: ListenerCalls) returns (fd: int, log: seq<Effect>)
    requires os.socket >= -1
    ensures fd != -1 <==> Succeeds(os)
    ensures fd != -1 ==> fd == os.socket && fd >= 0
    ensures 1 <= |log| && log[0] == Socket
    ensures Closes(log, os.socket) == (if os.socket != -1 && fd == -1 then 1 else 0)
    ensures forall k :: 0 <= k < |log| && log[k].Close? ==> log[k].fd == os.socket && k == |log| - 1
    ensures forall k :: 0 <= k < |log| && log[k].Bind? ==> log[k] == Bind(os.socket, Port16(port))
    ensures fd != -1 ==> log == SuccessLog(fd, port)
    ensures os.socket == -1 ==> log == [Socket]
    ensures fd == -1 && os.socket != -1 ==> log == SuccessLog(os.socket, port)[..CallsMade(os)] + [Close(os.socket)]
    ensures log == CallLog(port, os)
  {
    log := [Socket];
    var serverSocketFd := os.socket;
    if serverSocketFd == -1 {
      return serverSocketFd, log;
    }
    label cleanupSocketOnError: {
      log := log + [SetReuseAddr(serverSocketFd)];
      if os.setsockopt == -1 {
        break cleanupSocketOnError;
      }
      log := log + [Bind(serverSocketFd, Port16(port))];
      if os.bind == -1 {
        break cleanupSocketOnError;
      }
      log := log + [Listen(serverSocketFd, Backlog)];
      if os.listen == -1 {
        break cleanupSocketOnError;
      }
      assert Close(serverSocketFd) !in log;
      return serverSocketFd, log;
    }
    assert log == SuccessLog(serverSocketFd, port)[..|log|];
    FailureLog(serverSocketFd, port, |log|);
    log := log + [Close(serverSocketFd)];
    fd := -1;
  }

  /**
   * The log of the failure exit after the first `n` calls: the descriptor
   * is closed exactly once, as the last call, and nothing else is closed.
   */
  lemma FailureLog(fd: int, port: int, n: nat)
    requires 2 <= n <= 4
    ensures var log := SuccessLog(fd, port)[..n] + [Close(fd)];
      Closes(log, fd) == 1 &&
      (forall k :: 0 <= k < |log| && log[k].Close? ==> log[k].fd == fd && k == |log| - 1) &&
      (forall k :: 0 <= k < |log| && log[k].Bind? ==> log[k] == Bind(fd, Port16(port)))
  {
    var calls := SuccessLog(fd, port)[..n];
    assert Close(fd) !in calls;
    CountsAppend(calls, [Close(fd)], fd);
  }
}
