/**
 * The calls the server makes into the operating system, the allocator and
 * the script engine, recorded in the order it makes them.
 */
module Effects {
  /** One external call, with the arguments that matter. */
  datatype Effect =
    | Socket                              // socket(AF_INET, SOCK_STREAM, 0)
    | SetReuseAddr(fd: int)               // setsockopt(fd, SOL_SOCKET, SO_REUSEADDR, 1)
    | Bind(fd: int, port: int)            // bind to INADDR_ANY on the 16-bit port
    | Listen(fd: int, backlog: int)
    | Accept(fd: int)
    | Close(fd: int)
    | CallHandler(payload: seq<char>)     // v8_call_registered_handler_string
    | FreeRequest                         // free() of the framed request buffer
    | FreeResult                          // free() of the engine's string result
    | Write(fd: int, bytes: seq<char>)

  /** How often `fd` is closed in `log`. */
  function Closes(log: seq<Effect>, fd: int): (n: nat)
    ensures n <= |log|
    ensures n == 0 <==> Close(fd) !in log
  {
    if log == [] then 0 else (if log[0] == Close(fd) then 1 else 0) + Closes(log[1..], fd)
  }

  /** How often the script handler is called in `log`. */
  function Dispatches(log: seq<Effect>): (n: nat)
    ensures n <= |log|
    ensures n == 0 <==> forall k :: 0 <= k < |log| ==> !log[k].CallHandler?
  {
    if log == [] then 0 else (if log[0].CallHandler? then 1 else 0) + Dispatches(log[1..])
  }

  /** No bytes are written to any socket in `log`. */
  predicate NoWrites(log: seq<Effect>)
  {
    forall k :: 0 <= k < |log| ==> !log[k].Write?
  }

  /** Counting distributes over concatenation. */
  lemma {:induction false} CountsAppend(a: seq<Effect>, b: seq<Effect>, fd: int)
    ensures Closes(a + b, fd) == Closes(a, fd) + Closes(b, fd)
    ensures Dispatches(a + b) == Dispatches(a) + Dispatches(b)
    decreases |a|
  {
    if a != [] {
      assert (a + b)[1..] == a[1..] + b;
      CountsAppend(a[1..], b, fd);
    } else {
      assert a + b == b;
    }
  }
}
